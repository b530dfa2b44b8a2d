/** One node's deployment role and its hold on the shared primary lock file. */
module Deployment {
  import opened Sequences

  datatype Role = Primary | Standby

  datatype Payload = Payload(nodeName: string, pid: int, updatedAt: int)

  /** A lock file and its advisory lock, owned by one open descriptor at a time. */
  class LockFile {
    var present: bool
    var holder: Option<nat>
    var payload: Option<Payload>
    var nextFd: nat

    constructor ()
      ensures !present && holder == None && payload == None
    {
      present, holder, payload, nextFd := false, None, None, 0;
    }

    /** Opening in append mode creates the file and leaves its text alone. */
    method Open() returns (fd: nat)
      modifies this`present, this`nextFd
      ensures present && fd == old(nextFd) && nextFd == fd + 1
    {
      present := true;
      fd := nextFd;
      nextFd := nextFd + 1;
    }

    method TryLock(fd: nat) returns (ok: bool)
      modifies this`holder
      ensures ok == (old(holder) == None)
      ensures holder == if ok then Some(fd) else old(holder)
    {
      ok := holder == None;
      if ok { holder := Some(fd); }
    }

    method Unlock(fd: nat)
      modifies this`holder
      ensures holder == if old(holder) == Some(fd) then None else old(holder)
    {
      if holder == Some(fd) { holder := None; }
    }
  }

  datatype LockInfo = LockInfo(present: bool, locked: bool, ownerNode: string, ownerPid: int)

  datatype InitResult = Initialised | InvalidRole | LockAlreadyHeld

  /** The text of a role after stripping and lower-casing; anything else is refused. */
  function NormalizeRole(text: string): Option<Role> {
    if text == "primary" then Some(Primary) else if text == "standby" then Some(Standby) else None
  }

  class Node {
    const file: LockFile
    const pid: int
    var role: Role
    var nodeName: string
    var lockFd: Option<nat>

    constructor (file: LockFile, pid: int)
      ensures this.file == file && this.pid == pid && Valid() && lockFd == None && role == Primary
    {
      this.file, this.pid := file, pid;
      role, nodeName, lockFd := Primary, "", None;
    }

    /** A descriptor kept by this node is the one that owns the lock. */
    ghost predicate Valid()
      reads this, file
    { lockFd.Some? ==> file.holder == lockFd }

    method ReleasePrimaryLock()
      requires Valid()
      modifies this`lockFd, file`holder
      ensures Valid() && lockFd == None
      ensures file.holder == if old(lockFd).Some? then None else old(file.holder)
    {
      if lockFd.None? {
        return;
      }
      file.Unlock(lockFd.value);
      lockFd := None;
    }

    method AcquirePrimaryLock(name: string, now: int) returns (ok: bool)
      requires Valid() && lockFd == None
      modifies this`lockFd, file
      ensures Valid()
      ensures ok == (old(file.holder) == None)
      ensures ok ==> lockFd.Some? && file.holder == lockFd && file.payload == Some(Payload(name, pid, now))
      ensures !ok ==> lockFd == None && file.holder == old(file.holder) && file.payload == old(file.payload)
    {
      var fd := file.Open();
      ok := file.TryLock(fd);
      if !ok {
        return;
      }
      file.payload := None;
      file.payload := Some(Payload(name, pid, now));
      lockFd := Some(fd);
    }

    /**
     * A primary start succeeds exactly when nobody else owns the lock; a lock this process
     * held before is given up first. A refused start keeps the lock file's owner intact.
     */
    method InitDeploymentRole(roleText: string, name: string, now: int) returns (result: InitResult)
      requires Valid()
      modifies this`role, this`nodeName, this`lockFd, file
      ensures Valid()
      ensures NormalizeRole(roleText).None? <==> result == InvalidRole
      ensures result == InvalidRole ==> role == old(role) && lockFd == old(lockFd) && file.holder == old(file.holder)
      ensures NormalizeRole(roleText) != Some(Primary) ==> file.payload == old(file.payload)
      ensures NormalizeRole(roleText).Some? ==>
                && role == NormalizeRole(roleText).value
                && nodeName == (if name == "" then "nullius-node" else name)
      ensures NormalizeRole(roleText) == Some(Standby) ==>
                && result == Initialised && lockFd == None
                && file.holder == (if old(lockFd).Some? then None else old(file.holder))
      ensures NormalizeRole(roleText) == Some(Primary) ==>
                && (result == Initialised <==> old(file.holder).None? || old(lockFd).Some?)
                && (result == Initialised ==> lockFd.Some? && file.payload == Some(Payload(nodeName, pid, now)))
                && (result == LockAlreadyHeld ==> lockFd == None && file.holder == old(file.holder)
                                                  && file.payload == old(file.payload))
    {
      match NormalizeRole(roleText) {
        case None =>
          return InvalidRole;
        case Some(normalized) =>
          role := normalized;
          nodeName := if name == "" then "nullius-node" else name;
          ReleasePrimaryLock();
          if role == Primary {
            var ok := AcquirePrimaryLock(nodeName, now);
            return if ok then Initialised else LockAlreadyHeld;
          }
          return Initialised;
      }
    }

    /** Looking at the lock does not disturb it, and sees this node's own hold as locked too. */
    method InspectPrimaryLock() returns (info: LockInfo)
      modifies file`present, file`nextFd, file`holder
      ensures file.holder == old(file.holder) && file.present == old(file.present)
      ensures info.present == file.present
      ensures info.locked == (file.present && file.holder.Some?)
      ensures file.present && file.payload.Some? ==>
                info.ownerNode == file.payload.value.nodeName && info.ownerPid == file.payload.value.pid
      ensures !file.present || file.payload.None? ==> info.ownerNode == "" && info.ownerPid == 0
    {
      if !file.present {
        return LockInfo(false, false, "", 0);
      }
      var payload := file.payload;
      var fd := file.Open();
      var free := file.TryLock(fd);
      if free { file.Unlock(fd); }
      match payload
      case None => return LockInfo(true, !free, "", 0);
      case Some(p) => return LockInfo(true, !free, p.nodeName, p.pid);
    }
  }
}
