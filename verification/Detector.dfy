/**
 * Sliding-window detectors: per-address hit lists, filtered on every hit, emptied on
 * every alert, and pruned for other addresses only when some hit comes in.
 */
module Detector {
  import opened Sequences

  /** A matching log line. Rules that look at no destination port leave `port` at 0. */
  datatype Hit = Hit(at: int, port: int)

  type Attempts = map<string, seq<Hit>>

  /** What a rule compares with its threshold: the hits themselves, or the distinct ports among them. */
  datatype Rule = CountHits | CountPorts

  datatype Severity = Medium | High

  datatype Alert = Alert(eventType: string, severity: Severity, sourceIp: string, reported: int)

  function Fresh(hits: seq<Hit>, now: int, window: int): seq<Hit> {
    if hits == [] then []
    else if now - hits[0].at <= window then [hits[0]] + Fresh(hits[1..], now, window)
    else Fresh(hits[1..], now, window)
  }

  function Ports(hits: seq<Hit>): set<int> { set h | h in hits :: h.port }

  function Measure(rule: Rule, hits: seq<Hit>): nat {
    if rule.CountHits? then |hits| else |Ports(hits)|
  }

  function HitsOf(attempts: Attempts, ip: string): seq<Hit> {
    if ip in attempts then attempts[ip] else []
  }

  // ---------- one hit, on values ----------

  function Pruned(attempts: Attempts, currentIp: string, now: int, window: int): Attempts {
    map ip | ip in attempts && (ip == currentIp || Fresh(attempts[ip], now, window) != [])
      :: if ip == currentIp then attempts[ip] else Fresh(attempts[ip], now, window)
  }

  /** The hits of `ip` still in the window, the new one included. */
  function Recent(attempts: Attempts, ip: string, hit: Hit, window: int): seq<Hit> {
    Fresh(HitsOf(attempts, ip) + [hit], hit.at, window)
  }

  function Recorded(attempts: Attempts, ip: string, hit: Hit, window: int): Attempts {
    Pruned(attempts[ip := Recent(attempts, ip, hit, window)], ip, hit.at, window)
  }

  predicate Fires(rule: Rule, attempts: Attempts, ip: string, hit: Hit, threshold: int, window: int) {
    Measure(rule, Recent(attempts, ip, hit, window)) >= threshold
  }

  function Observed(rule: Rule, attempts: Attempts, ip: string, hit: Hit, threshold: int, window: int): Attempts {
    var recorded := Recorded(attempts, ip, hit, window);
    if Fires(rule, attempts, ip, hit, threshold, window) then recorded[ip := []] else recorded
  }

  // ---------- the dictionaries, updated in place ----------

  class AttemptTable {
    var hits: Attempts

    constructor ()
      ensures hits == map[]
    {
      hits := map[];
    }

    /** Drops other addresses without a fresh hit, and stale hits of the rest. */
    method PruneStaleAttempts(currentIp: string, now: int, window: int)
      modifies this
      ensures hits == Pruned(old(hits), currentIp, now, window)
    {
      var staleIps: set<string> := {};
      var pending := hits.Keys;
      while pending != {}
        invariant hits.Keys == old(hits).Keys && pending <= hits.Keys && staleIps <= hits.Keys - pending
        invariant forall ip :: ip in pending ==> hits[ip] == old(hits)[ip]
        invariant forall ip :: ip in hits && ip !in pending ==>
                    if ip == currentIp then hits[ip] == old(hits)[ip] && ip !in staleIps
                    else if Fresh(old(hits)[ip], now, window) == [] then ip in staleIps
                    else hits[ip] == Fresh(old(hits)[ip], now, window) && ip !in staleIps
        decreases pending
      {
        var otherIp :| otherIp in pending;
        pending := pending - {otherIp};
        if otherIp == currentIp {
          continue;
        }
        var live := Fresh(hits[otherIp], now, window);
        if live == [] {
          staleIps := staleIps + {otherIp};
        } else {
          hits := hits[otherIp := live];
        }
      }
      hits := hits - staleIps;
    }

    method Record(ip: string, hit: Hit, window: int)
      modifies this
      ensures hits == Recorded(old(hits), ip, hit, window)
      ensures ip in hits && hits[ip] == Recent(old(hits), ip, hit, window)
    {
      if ip !in hits {
        hits := hits[ip := []];
      }
      hits := hits[ip := hits[ip] + [hit]];
      hits := hits[ip := Fresh(hits[ip], hit.at, window)];
      assert hits == old(hits)[ip := Recent(old(hits), ip, hit, window)];
      PruneStaleAttempts(ip, hit.at, window);
    }

    method DetectSshBruteforce(line: Option<string>, threshold: int, window: int, now: int)
      returns (alert: Option<Alert>)
      modifies this
      ensures line.None? ==> alert == None && hits == old(hits)
      ensures line.Some? ==>
                var ip, hit := line.value, Hit(now, 0);
                && hits == Observed(CountHits, old(hits), ip, hit, threshold, window)
                && alert == if Fires(CountHits, old(hits), ip, hit, threshold, window)
                            then Some(Alert("ssh_brute_force", High, ip, threshold)) else None
    {
      if line.None? {
        return None;
      }
      var ip := line.value;
      Record(ip, Hit(now, 0), window);
      if |hits[ip]| >= threshold {
        hits := hits[ip := []];
        return Some(Alert("ssh_brute_force", High, ip, threshold));
      }
      return None;
    }

    method DetectSshInvalidUser(line: Option<string>, enabled: bool, threshold: int, window: int, now: int)
      returns (alert: Option<Alert>)
      modifies this
      ensures !enabled || line.None? ==> alert == None && hits == old(hits)
      ensures enabled && line.Some? ==>
                var ip, hit := line.value, Hit(now, 0);
                && hits == Observed(CountHits, old(hits), ip, hit, threshold, window)
                && alert == if Fires(CountHits, old(hits), ip, hit, threshold, window)
                            then Some(Alert("ssh_user_enum", Medium, ip, threshold)) else None
    {
      if !enabled || line.None? {
        return None;
      }
      var ip := line.value;
      Record(ip, Hit(now, 0), window);
      if |hits[ip]| < threshold {
        return None;
      }
      hits := hits[ip := []];
      return Some(Alert("ssh_user_enum", Medium, ip, threshold));
    }

    method DetectWebLoginAbuse(line: Option<string>, enabled: bool, threshold: int, window: int, now: int)
      returns (alert: Option<Alert>)
      modifies this
      ensures !enabled || line.None? ==> alert == None && hits == old(hits)
      ensures enabled && line.Some? ==>
                var ip, hit := line.value, Hit(now, 0);
                && hits == Observed(CountHits, old(hits), ip, hit, threshold, window)
                && alert == if Fires(CountHits, old(hits), ip, hit, threshold, window)
                            then Some(Alert("web_login_bruteforce", High, ip, threshold)) else None
    {
      if !enabled || line.None? {
        return None;
      }
      var ip := line.value;
      Record(ip, Hit(now, 0), window);
      if |hits[ip]| < threshold {
        return None;
      }
      hits := hits[ip := []];
      return Some(Alert("web_login_bruteforce", High, ip, threshold));
    }

    method DetectPortScan(line: Option<(string, int)>, enabled: bool, threshold: int, window: int, now: int)
      returns (alert: Option<Alert>)
      modifies this
      ensures !enabled || line.None? ==> alert == None && hits == old(hits)
      ensures enabled && line.Some? ==>
                var ip, hit := line.value.0, Hit(now, line.value.1);
                && hits == Observed(CountPorts, old(hits), ip, hit, threshold, window)
                && alert == if Fires(CountPorts, old(hits), ip, hit, threshold, window)
                            then Some(PortScanAlert(old(hits), ip, hit, threshold, window)) else None
      ensures alert.Some? ==> line.Some? && alert.value.eventType == "port_scan" && alert.value.sourceIp == line.value.0
    {
      if !enabled || line.None? {
        return None;
      }
      var (ip, port) := line.value;
      Record(ip, Hit(now, port), window);
      var uniquePorts := Ports(hits[ip]);
      if |uniquePorts| < threshold {
        return None;
      }
      hits := hits[ip := []];
      var severity := if |uniquePorts| >= threshold * 2 then High else Medium;
      return Some(Alert("port_scan", severity, ip, |uniquePorts|));
    }
  }

  function PortScanAlert(attempts: Attempts, ip: string, hit: Hit, threshold: int, window: int): Alert {
    var found := Measure(CountPorts, Recent(attempts, ip, hit, window));
    Alert("port_scan", if found >= threshold * 2 then High else Medium, ip, found)
  }
}
