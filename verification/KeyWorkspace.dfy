/** RotateKey and LoadKey as the code runs them, each operation on the files or the database a step of the protocol. */
module KeyWorkspace {
  import opened Wrappers
  import opened KeyRotation

  /** A name that is not taken. */
  method FreshPath(taken: set<Path>) returns (p: Path)
    ensures p !in taken
  {
    p := 0;
    var todo := taken;
    while todo != {}
      invariant todo <= taken
      invariant forall q :: q in taken ==> q in todo || q < p
      decreases todo
    {
      var q :| q in todo;
      if p <= q {
        p := q + 1;
      }
      todo := todo - {q};
    }
  }

  class Workspace {
    var disk: Disk

    /** Where the code is, and every state the workspace was in. */
    ghost var at: Place
    ghost var states: seq<State>

    ghost predicate Valid()
      reads this
    {
      IsRun(true, states) && states[|states| - 1] == State(disk, at)
    }

    /** A command starts on what the ones before it left, wherever the last of them died. */
    constructor (d: Disk, ghost before: seq<State>)
      requires IsRun(true, before) && before[|before| - 1] == State(d, Idle)
      ensures Valid() && disk == d && at == Idle && states == before
    {
      disk, at := d, Idle;
      states := before;
    }

    /** One step: the disk changes and the code goes on. */
    method Go(d: Disk, ghost next: Place)
      requires Valid() && Next(true, State(disk, at), State(d, next))
      modifies this
      ensures Valid() && disk == d && at == next && states == old(states) + [State(d, next)]
    {
      disk, at := d, next;
      states := states + [State(d, next)];
    }

    /** A step whose operation may fail unnoticed. */
    method Try(faulty: bool, d: Disk, ghost next: Place)
      requires Valid() && Next(true, State(disk, at), State(d, next)) && Next(true, State(disk, at), State(disk, next))
      modifies this
      ensures Valid() && at == next && (disk == d || (faulty && disk == old(disk))) && old(states) <= states
    {
      var failed: bool := *;
      Go(if faulty && failed then disk else d, next);
    }

    /** A step whose operation, when it fails, ends the command. */
    method May(faulty: bool, d: Disk, ghost next: Place) returns (ok: bool)
      requires Valid() && Next(true, State(disk, at), State(d, next)) && Next(true, State(disk, at), State(disk, Idle))
      modifies this
      ensures Valid() && old(states) <= states
      ensures if ok then disk == d && at == next else faulty && disk == old(disk) && at == Idle
    {
      var failed: bool := *;
      ok := !(faulty && failed);
      if ok {
        Go(d, next);
      } else {
        Go(disk, Idle);
      }
    }

    /** Nothing the workspace went through so far stranded a secret. */
    lemma SafeNow()
      requires Valid()
      ensures Inv(State(disk, at))
    {
      NoSecretStranded(states, |states| - 1);
    }

    lemma AllSafe()
      requires Valid()
      ensures forall i :: 0 <= i < |states| ==> Safe(states[i].disk)
    {
      forall i | 0 <= i < |states| ensures Safe(states[i].disk) {
        NoSecretStranded(states, i);
      }
    }

    /** Removes the journal, which may fail unnoticed, and returns. */
    method FinishRotation(faulty: bool)
      requires Valid() && at == DropJournal
      modifies this
      ensures Valid() && at == Returned && Opens(disk) && old(states) <= states
      ensures disk.key == old(disk.key)
      ensures !faulty ==> Settled(disk)
    {
      SafeNow();
      hide IsRun, LoadStep, WorldStep;
      Try(faulty, RemoveJournal(disk), Returned);
    }

    /** A committed journal: the new key is installed, unless that was done before. */
    method ResumeCommitted(faulty: bool, p: Path) returns (ok: bool)
      requires Valid() && at == RotateStart && disk.journal == Some(Committed(p))
      modifies this
      ensures Valid() && old(states) <= states
      ensures if ok then at == Returned && Opens(disk) else at == Idle && faulty
      ensures !faulty ==> Settled(disk)
    {
      hide IsRun, LoadStep, WorldStep;
      Go(disk, ResumeInstall(p));
      if p in disk.temps {
        ok := May(faulty, Install(disk, p), DropJournal);
        if !ok {
          return;
        }
      } else {
        Go(disk, DropJournal);
      }
      FinishRotation(faulty);
      ok := true;
    }

    /** The database may have been committed: the probe decides. */
    method ResolvePending(faulty: bool, p: Path) returns (done: bool, ok: bool)
      requires Valid() && at == RotateStart && disk.journal == Some(Pending(p))
      modifies this
      ensures Valid() && old(states) <= states
      ensures done ==> (if ok then at == Returned && Opens(disk) else at == Idle && faulty)
      ensures done && !faulty ==> Settled(disk)
      ensures !done ==> at == Sweep && (!faulty ==> disk.journal.None?)
    {
      hide IsRun, LoadStep, WorldStep;
      Go(disk, ProbePending(p));
      if p in disk.temps && disk.temps[p].Whole? && OpensAny(disk, disk.temps[p].key) {
        Go(disk, ResumePending(p)); // committed before the journal said so
        ok := May(faulty, Install(disk, p), DropJournal);
        if ok {
          FinishRotation(faulty);
        }
        return true, ok;
      }
      Go(disk, RollbackTemp(p));
      ForgetPending(faulty, p);
      return false, false;
    }

    /** The rollback of a rotation that the probe answered no to. */
    method ForgetPending(faulty: bool, p: Path)
      requires Valid() && at == RollbackTemp(p)
      modifies this
      ensures Valid() && old(states) <= states && at == Sweep && (!faulty ==> disk.journal.None?)
    {
      hide IsRun, LoadStep, WorldStep;
      Try(faulty, RemoveTemp(disk, p), RollbackJournal);
      Try(faulty, RemoveJournal(disk), Sweep);
    }

    /** Resumes or rolls back what an interrupted rotation left: done when that finished it. */
    method Recover(faulty: bool) returns (done: bool, ok: bool)
      requires Valid() && at == RotateStart
      modifies this
      ensures Valid() && old(states) <= states
      ensures done ==> (if ok then at == Returned && Opens(disk) else at == Idle && faulty)
      ensures done && !faulty ==> Settled(disk)
      ensures !done ==> at == Sweep && (!faulty ==> disk.journal.None?)
      ensures old(disk.journal).None? ==> !done && disk.journal.None?
    {
      hide IsRun, LoadStep, WorldStep;
      match disk.journal {
        case None =>
          Go(disk, Sweep);
          return false, false;
        case Some(Committed(p)) =>
          ok := ResumeCommitted(faulty, p);
          return true, ok;
        case Some(Pending(p)) =>
          done, ok := ResolvePending(faulty, p);
      }
    }

    /** Removes the temp files a killed process left. */
    method SweepTemps(faulty: bool)
      requires Valid() && at == Sweep
      modifies this
      ensures Valid() && at == LoadStart(true) && old(states) <= states
      ensures disk.journal == old(disk.journal)
    {
      hide IsRun, LoadStep, WorldStep;
      var todo := disk.temps.Keys;
      while todo != {}
        invariant Valid() && at == Sweep && old(states) <= states && disk.journal == old(disk.journal)
        invariant todo <= disk.temps.Keys
        decreases todo
      {
        var p :| p in todo;
        todo := todo - {p};
        var failed: bool := *;
        if !(faulty && failed) {
          Go(RemoveTemp(disk, p), Sweep);
        }
      }
      Go(disk, LoadStart(true));
    }

    /** Finishes the installation a committed journal names; false when that failed. */
    method ResumeIfCommitted(faulty: bool, ghost rotating: bool) returns (ok: bool)
      requires Valid() && at == LoadStart(rotating)
      modifies this
      ensures Valid() && old(states) <= states
      ensures if ok then at == LoadCheck(rotating) else at == Idle && faulty
      ensures !old(disk.journal.Some? && disk.journal.value.Committed?) ==> ok && disk == old(disk)
      ensures old(disk.journal.Some? && disk.journal.value.Committed?) && !faulty ==> disk.journal.None?
    {
      hide IsRun, RotateStep, WorldStep;
      if disk.journal.None? || disk.journal.value.Pending? {
        Go(disk, LoadCheck(rotating));
        return true;
      }
      var p := disk.journal.value.path;
      Go(disk, LoadInstall(rotating, p));
      if p in disk.temps {
        ok := May(faulty, Install(disk, p), LoadDrop(rotating));
        if !ok {
          return;
        }
      } else {
        Go(disk, LoadDrop(rotating));
      }
      Try(faulty, RemoveJournal(disk), LoadCheck(rotating));
      ok := true;
    }

    /** LoadKey from its first step: it finishes a committed rotation, refuses a pending one, and else reads the key. */
    method Load(faulty: bool, ghost rotating: bool) returns (r: Option<Key>)
      requires Valid() && at == LoadStart(rotating)
      modifies this
      ensures Valid() && old(states) <= states
      ensures r.Some? ==>
          at == (if rotating then CreateTemp(r.value) else Loaded(r.value)) && disk.key == Whole(r.value)
      ensures r.None? ==> at == Idle
      ensures !faulty && disk.key.Whole? ==> (r.None? <==> old(disk.journal.Some? && disk.journal.value.Pending?))
    {
      hide IsRun, RotateStep, WorldStep;
      var ok := ResumeIfCommitted(faulty, rotating);
      if !ok {
        return None;
      }
      if disk.journal.Some? && disk.journal.value.Pending? {
        Go(disk, Idle);
        return None;
      }
      match disk.key {
        case Partial =>
          Go(disk, Idle);
          return None;
        case Whole(k) =>
          Go(disk, if rotating then CreateTemp(k) else Loaded(k));
          return Some(k);
      }
    }

    /** A temp file with the new key, and the pending journal that names it. */
    method Prepare(faulty: bool, oldKey: Key, newKey: Key) returns (p: Option<Path>)
      requires Valid() && at == CreateTemp(oldKey)
      modifies this
      ensures Valid() && old(states) <= states
      ensures if p.Some? then at == Encrypting(oldKey, p.value, newKey) else at == Idle && faulty
    {
      hide IsRun, LoadStep, WorldStep;
      var q := FreshPath(disk.temps.Keys + if disk.journal.Some? then {disk.journal.value.path} else {});
      var ok := May(faulty, WriteTemp(disk, q, Partial), FillTemp(oldKey, q));
      if !ok {
        return None;
      }
      var failed: bool := *;
      if faulty && failed {
        Try(faulty, RemoveTemp(disk, q), Idle);
        return None;
      }
      Go(WriteTemp(disk, q, Whole(newKey)), Journalled(oldKey, q, newKey));
      failed := *;
      if faulty && failed {
        Try(faulty, RemoveTemp(disk, q), Idle);
        return None;
      }
      Go(WriteJournal(disk, Pending(q)), Encrypting(oldKey, q, newKey));
      return Some(q);
    }

    /** A rotation from the old key to the new one; without failures it always succeeds. */
    method Rotate(faulty: bool, oldKey: Key, newKey: Key) returns (ok: bool)
      requires Valid() && at == CreateTemp(oldKey)
      modifies this
      ensures Valid() && old(states) <= states
      ensures if ok then at == Returned && Opens(disk) && disk.key == Whole(newKey) else at == Idle && faulty
      ensures !faulty ==> Settled(disk)
    {
      hide IsRun, LoadStep, WorldStep;
      var q := Prepare(faulty, oldKey, newKey);
      if q.None? {
        return false;
      }
      ok := Commit(faulty, q.value, oldKey, newKey);
    }

    /** The database's transaction, then the journal, then the key file. */
    method Commit(faulty: bool, p: Path, oldKey: Key, newKey: Key) returns (ok: bool)
      requires Valid() && at == Encrypting(oldKey, p, newKey)
      modifies this
      ensures Valid() && old(states) <= states
      ensures if ok then at == Returned && Opens(disk) && disk.key == Whole(newKey) else at == Idle && faulty
      ensures !faulty ==> Settled(disk)
    {
      hide IsRun, LoadStep, WorldStep;
      SafeNow();
      var failed: bool := *;
      if (faulty && failed) || !OpensAll(disk, oldKey) {
        RollBack(faulty, p, oldKey, newKey);
        return false;
      }
      Go(Reencrypt(disk, newKey), Advance(p, newKey));
      ok := InstallNew(faulty, p, newKey);
    }

    /** The database is committed: the journal says so, and the new key file is put in place. */
    method InstallNew(faulty: bool, p: Path, newKey: Key) returns (ok: bool)
      requires Valid() && at == Advance(p, newKey)
      modifies this
      ensures Valid() && old(states) <= states
      ensures if ok then at == Returned && Opens(disk) && disk.key == Whole(newKey) else at == Idle && faulty
      ensures !faulty ==> Settled(disk)
    {
      hide IsRun, LoadStep, WorldStep;
      Try(faulty, WriteJournal(disk, Committed(p)), Installing(p, newKey));
      SafeNow();
      ok := May(faulty, Install(disk, p), DropJournal);
      if ok {
        FinishRotation(faulty);
      }
    }

    /** The transaction was rolled back: the temp file and the journal go. */
    method RollBack(faulty: bool, p: Path, ghost oldKey: Key, ghost newKey: Key)
      requires Valid() && at == Encrypting(oldKey, p, newKey)
      modifies this
      ensures Valid() && old(states) <= states && at == Idle
    {
      hide IsRun, LoadStep, WorldStep;
      Go(disk, UndoTemp(p));
      Try(faulty, RemoveTemp(disk, p), UndoJournal);
      Try(faulty, RemoveJournal(disk), Idle);
    }

    /** Whatever an interrupted rotation left, RotateKey goes through states that strand no secret; when it succeeds
        the key file opens every secret; and when no operation fails it does succeed, with no journal left, and with
        the new key when there was none. */
    method RotateKey(faulty: bool, newKey: Key) returns (ok: bool)
      requires Valid() && at == Idle
      modifies this
      ensures Valid() && at == Idle && old(states) <= states && forall i :: 0 <= i < |states| ==> Safe(states[i].disk)
      ensures ok ==> Opens(disk)
      ensures !faulty ==> ok && Settled(disk)
      ensures ok && old(disk.journal).None? ==> disk.key == Whole(newKey)
    {
      hide IsRun, RotateStep, LoadStep;
      Go(disk, RotateStart);
      var done;
      done, ok := Recover(faulty);
      if !done {
        SweepTemps(faulty);
        var k := Load(faulty, true);
        SafeNow();
        match k {
          case None => ok := false;
          case Some(oldKey) => ok := Rotate(faulty, oldKey, newKey);
        }
      }
      Go(disk, Idle);
      AllSafe();
    }

    /** LoadKey gives a key that opens every stored secret, or none; without failures it refuses exactly a pending
        rotation. */
    method LoadKey(faulty: bool) returns (r: Option<Key>)
      requires Valid() && at == Idle
      modifies this
      ensures Valid() && old(states) <= states
      ensures r.Some? ==> at == Loaded(r.value) && OpensAll(disk, r.value)
      ensures r.None? ==> at == Idle
      ensures !faulty ==> (r.None? <==> old(disk.journal.Some? && disk.journal.value.Pending?))
    {
      hide IsRun, RotateStep, LoadStep;
      Go(disk, LoadStart(false));
      r := Load(faulty, false);
      SafeNow();
    }
  }
}
