/** Crash-safe key rotation: the files and the database as one process at a time changes them, step by step. */
module KeyRotation {
  import opened Wrappers

  /** A key, told apart from other keys. */
  type Key = nat

  /** A file's name in the workspace. */
  type Path = nat

  /** What a key file or a temp key file holds: 32 bytes, or what a crash left of them. */
  datatype KeyFile = Whole(key: Key) | Partial

  datatype Journal = Pending(path: Path) | Committed(path: Path)

  /** The workspace: its key file, the temp key files, the rotation journal, and for each stored secret the key it is
      encrypted under. */
  datatype Disk = Disk(key: KeyFile, temps: map<Path, KeyFile>, journal: Option<Journal>, secrets: seq<Key>)

  // ----- the steps on the disk, each atomic -----

  predicate OpensAll(d: Disk, k: Key) {
    forall i :: 0 <= i < |d.secrets| ==> d.secrets[i] == k
  }

  /** Some secret is under this key, which is the question that `tryDecryptAny` is asked. */
  predicate OpensAny(d: Disk, k: Key) {
    exists i :: 0 <= i < |d.secrets| && d.secrets[i] == k
  }

  /** rename(temp file, key file). */
  function Install(d: Disk, p: Path): Disk
    requires p in d.temps
  {
    d.(key := d.temps[p], temps := d.temps - {p})
  }

  function RemoveTemp(d: Disk, p: Path): Disk {
    d.(temps := d.temps - {p})
  }

  function RemoveJournal(d: Disk): Disk {
    d.(journal := None)
  }

  function WriteJournal(d: Disk, j: Journal): Disk {
    d.(journal := Some(j))
  }

  function WriteTemp(d: Disk, p: Path, f: KeyFile): Disk {
    d.(temps := d.temps[p := f])
  }

  /** The database transaction: every secret under the new key. */
  function Reencrypt(d: Disk, k: Key): Disk {
    d.(secrets := seq(|d.secrets|, i => k))
  }

  function AddSecret(d: Disk, k: Key): Disk {
    d.(secrets := d.secrets + [k])
  }

  function DeleteSecret(d: Disk, i: nat): Disk
    requires i < |d.secrets|
  {
    d.(secrets := d.secrets[..i] + d.secrets[i + 1..])
  }

  /** A name for a new temp file: random, so neither a file's nor the one a journal still holds. */
  predicate IsFresh(d: Disk, p: Path) {
    p !in d.temps && NotNamed(d, p)
  }

  predicate NotNamed(d: Disk, p: Path) {
    d.journal.Some? ==> d.journal.value.path != p
  }

  // ----- the protocol -----

  /** Where the one process that uses the key is: between commands, in RotateKey, or in LoadKey, which RotateKey
      calls too. `Loaded` holds the key LoadKey gave, `Returned` is a RotateKey that ended without an error. */
  datatype Place =
    | Idle
    | Returned
    | RotateStart
    | ResumeInstall(path: Path)
    | ProbePending(path: Path)
    | ResumePending(path: Path)
    | RollbackTemp(path: Path)
    | RollbackJournal
    | Sweep
    | CreateTemp(oldKey: Key)
    | FillTemp(oldKey: Key, path: Path)
    | Journalled(oldKey: Key, path: Path, newKey: Key)
    | Encrypting(oldKey: Key, path: Path, newKey: Key)
    | UndoTemp(path: Path)
    | UndoJournal
    | Advance(path: Path, newKey: Key)
    | Installing(path: Path, newKey: Key)
    | DropJournal
    | LoadStart(rotating: bool)
    | LoadInstall(rotating: bool, path: Path)
    | LoadDrop(rotating: bool)
    | LoadCheck(rotating: bool)
    | Loaded(key: Key)

  datatype State = State(disk: Disk, at: Place)

  /** One step of RotateKey. A step whose operation can fail has the failure too: the ones the code ignores go on, the
      others end the command. `exact` is what the code takes for granted: its probe tells whether a secret opens with
      the key, and a file that is there can be read. Without it the journal may look absent, and the temp key it names
      may look installed. */
  predicate RotateStep(exact: bool, d: Disk, at: Place, d': Disk, at': Place) {
    match at
    case Returned => d' == d && at'.Idle?
    // RotateKey: recovery
    case RotateStart =>
      d' == d && ((!exact && at' == Sweep)
                  || match d.journal
                     case None => at' == Sweep
                     case Some(Committed(p)) => at' == ResumeInstall(p)
                     case Some(Pending(p)) => at' == ProbePending(p))
    case ResumeInstall(p) =>
      if p in d.temps then
        || (d' == Install(d, p) && at' == DropJournal)
        || (d' == d && (at' == Idle || (!exact && at' == DropJournal)))
      else d' == d && at' == DropJournal
    case ProbePending(p) =>
      d' == d
      && (if p in d.temps && d.temps[p].Whole? then
            if exact then at' == (if OpensAny(d, d.temps[p].key) then ResumePending(p) else RollbackTemp(p))
            else at' == ResumePending(p) || at' == RollbackTemp(p)
          else at' == RollbackTemp(p))
    case ResumePending(p) => (p in d.temps && d' == Install(d, p) && at' == DropJournal) || (d' == d && at' == Idle)
    case RollbackTemp(p) => (d' == RemoveTemp(d, p) || d' == d) && at' == RollbackJournal
    case RollbackJournal => (d' == RemoveJournal(d) || d' == d) && at' == Sweep
    // RotateKey: a rotation
    case Sweep =>
      || (d' == d && at' == LoadStart(true))
      || (at' == Sweep && exists p :: p in d.temps && d' == RemoveTemp(d, p))
    case CreateTemp(oldKey) =>
      || (d' == d && at' == Idle)
      || (at'.FillTemp? && at'.oldKey == oldKey && IsFresh(d, at'.path) && d' == WriteTemp(d, at'.path, Partial))
    case FillTemp(oldKey, p) =>
      (at' == Idle && (d' == RemoveTemp(d, p) || d' == d))
      || (at'.Journalled? && at'.oldKey == oldKey && at'.path == p && d' == WriteTemp(d, p, Whole(at'.newKey)))
    case Journalled(oldKey, p, k) =>
      (at' == Idle && (d' == RemoveTemp(d, p) || d' == d))
      || (d' == WriteJournal(d, Pending(p)) && at' == Encrypting(oldKey, p, k))
    case Encrypting(oldKey, p, k) =>
      (d' == d && at' == UndoTemp(p)) || (OpensAll(d, oldKey) && d' == Reencrypt(d, k) && at' == Advance(p, k))
    case UndoTemp(p) => (d' == RemoveTemp(d, p) || d' == d) && at' == UndoJournal
    case UndoJournal => (d' == RemoveJournal(d) || d' == d) && at' == Idle
    case Advance(p, k) => (d' == WriteJournal(d, Committed(p)) || d' == d) && at' == Installing(p, k)
    case Installing(p, k) => (p in d.temps && d' == Install(d, p) && at' == DropJournal) || (d' == d && at' == Idle)
    case DropJournal => (d' == RemoveJournal(d) || d' == d) && at' == Returned
    case _ => false
  }

  /** One step of LoadKey, alone or in RotateKey. It reads the journal twice: a first read that fails ends the
      command, a second one is taken for no journal. */
  predicate LoadStep(exact: bool, d: Disk, at: Place, d': Disk, at': Place) {
    match at
    case LoadStart(r) =>
      d' == d && (match d.journal
                  case Some(Committed(p)) => at' == LoadInstall(r, p)
                  case _ => at' == LoadCheck(r))
    case LoadInstall(r, p) =>
      if p in d.temps then
        || (d' == Install(d, p) && at' == LoadDrop(r))
        || (d' == d && (at' == Idle || (!exact && at' == LoadDrop(r))))
      else d' == d && at' == LoadDrop(r)
    case LoadDrop(r) => (d' == RemoveJournal(d) || d' == d) && at' == LoadCheck(r)
    case LoadCheck(r) =>
      // a pending journal is refused: which key the secrets are under is not known
      d' == d && (|| (at' == Idle && (!d.key.Whole? || IsPending(d)))
                  || (d.key.Whole? && (IsPending(d) ==> !exact)
                      && at' == if r then CreateTemp(d.key.key) else Loaded(d.key.key)))
    case Loaded(k) =>
      // `secret set` keeps its lock until here
      (d' == d && at' == Idle) || (d' == AddSecret(d, k) && at' == at)
    case _ => false
  }

  predicate IsPending(d: Disk) {
    d.journal.Some? && d.journal.value.Pending?
  }

  predicate CodeStep(exact: bool, d: Disk, at: Place, d': Disk, at': Place) {
    RotateStep(exact, d, at, d', at') || LoadStep(exact, d, at, d', at')
  }

  /** What happens around it: a command starts, the process dies anywhere, or a secret is deleted, which takes no
      lock. */
  predicate WorldStep(s: State, s': State) {
    || (s.at.Idle? && s'.disk == s.disk && (s'.at.RotateStart? || s'.at == LoadStart(false)))
    || (s'.disk == s.disk && s'.at.Idle?)
    || (s'.at == s.at && exists i :: 0 <= i < |s.disk.secrets| && s'.disk == DeleteSecret(s.disk, i))
  }

  predicate Next(exact: bool, s: State, s': State) {
    CodeStep(exact, s.disk, s.at, s'.disk, s'.at) || WorldStep(s, s')
  }

  /** A workspace between rotations: its key opens every secret. */
  predicate Settled(d: Disk) {
    d.journal.None? && d.key.Whole? && OpensAll(d, d.key.key)
  }

  /** A run of the workspace, from a settled one. */
  predicate IsRun(exact: bool, states: seq<State>) {
    && states != [] && Settled(states[0].disk) && states[0].at.Idle?
    && forall i :: 0 <= i < |states| - 1 ==> Next(exact, states[i], states[i + 1])
  }

  // ----- what every reachable state keeps -----

  /** The key file opens every secret. */
  predicate Opens(d: Disk) {
    d.key.Whole? && OpensAll(d, d.key.key)
  }

  /** The temp file p holds a whole key that opens every secret. */
  predicate TempOpens(d: Disk, p: Path) {
    p in d.temps && d.temps[p].Whole? && OpensAll(d, d.temps[p].key)
  }

  /** No secret is stranded: the key the secrets are under is in the key file, or in the temp file the journal names,
      which is whole; and a committed journal says which. */
  predicate Safe(d: Disk) {
    d.key.Whole? &&
    match d.journal
    case None => Opens(d)
    case Some(Pending(p)) => (p in d.temps ==> d.temps[p].Whole?) && (Opens(d) || TempOpens(d, p))
    case Some(Committed(p)) => if p in d.temps then TempOpens(d, p) else Opens(d)
  }

  /** An installation that a committed journal still asks for would change no key. */
  predicate Agrees(d: Disk) {
    d.journal.Some? && d.journal.value.Committed? && d.journal.value.path in d.temps ==>
        d.temps[d.journal.value.path] == d.key
  }

  /** What the code knows at each place. */
  predicate Knows(d: Disk, at: Place) {
    match at
    case ResumeInstall(p) => d.journal == Some(Committed(p))
    case LoadStart(r) => r ==> Opens(d)
    case LoadInstall(r, p) => d.journal == Some(Committed(p))
    case ProbePending(p) => d.journal == Some(Pending(p))
    case ResumePending(p) => d.journal == Some(Pending(p)) && TempOpens(d, p)
    case RollbackTemp(_) => Opens(d)
    case RollbackJournal => Opens(d)
    case Sweep => Opens(d)
    case CreateTemp(oldKey) => d.key == Whole(oldKey) && Opens(d)
    case FillTemp(oldKey, p) => d.key == Whole(oldKey) && Opens(d) && p in d.temps && NotNamed(d, p)
    case Journalled(oldKey, p, k) =>
      d.key == Whole(oldKey) && Opens(d) && p in d.temps && d.temps[p] == Whole(k) && NotNamed(d, p)
    case Encrypting(oldKey, p, k) =>
      d.journal == Some(Pending(p)) && d.key == Whole(oldKey) && Opens(d) && p in d.temps && d.temps[p] == Whole(k)
    case UndoTemp(p) => Opens(d)
    case UndoJournal => Opens(d)
    case Advance(p, k) => d.journal == Some(Pending(p)) && p in d.temps && d.temps[p] == Whole(k) && OpensAll(d, k)
    case Installing(p, k) =>
      d.journal.Some? && d.journal.value.path == p && p in d.temps && d.temps[p] == Whole(k) && OpensAll(d, k)
    case DropJournal => Opens(d)
    case LoadDrop(r) => Opens(d) && (!r ==> Agrees(d))
    case LoadCheck(r) => (r || !IsPending(d) ==> Opens(d)) && (!r ==> Agrees(d))
    case Loaded(k) => d.key == Whole(k) && Opens(d) && Agrees(d)
    case _ => true
  }

  predicate Inv(s: State) {
    Safe(s.disk) && Knows(s.disk, s.at)
  }

  lemma RotateStepKeeps(s: State, s': State)
    requires Inv(s) && RotateStep(true, s.disk, s.at, s'.disk, s'.at)
    ensures Inv(s')
  {}

  lemma LoadStepKeeps(s: State, s': State)
    requires Inv(s) && LoadStep(true, s.disk, s.at, s'.disk, s'.at)
    ensures Inv(s')
  {}

  lemma WorldStepKeeps(s: State, s': State)
    requires Inv(s) && WorldStep(s, s')
    ensures Inv(s')
  {}

  lemma StepKeeps(s: State, s': State)
    requires Inv(s) && Next(true, s, s')
    ensures Inv(s')
  {
    hide RotateStep, LoadStep, WorldStep, Inv;
    if RotateStep(true, s.disk, s.at, s'.disk, s'.at) {
      RotateStepKeeps(s, s');
    } else if LoadStep(true, s.disk, s.at, s'.disk, s'.at) {
      LoadStepKeeps(s, s');
    } else {
      WorldStepKeeps(s, s');
    }
  }

  /** In every reachable state, with a crash after any step and recovery itself interrupted any number of times, no
      secret is stranded. */
  lemma {:induction false} NoSecretStranded(states: seq<State>, i: nat)
    requires IsRun(true, states) && i < |states|
    ensures Inv(states[i])
  {
    if i > 0 {
      NoSecretStranded(states, i - 1);
      hide Next, Inv;
      StepKeeps(states[i - 1], states[i]);
    }
  }

  /** LoadKey refuses or gives the key every stored secret is under: it never gives another. */
  lemma LoadedKeyOpensAll(states: seq<State>, i: nat)
    requires IsRun(true, states) && i < |states| && states[i].at.Loaded?
    ensures OpensAll(states[i].disk, states[i].at.key)
  {
    NoSecretStranded(states, i);
  }

  /** A rotation that ended without an error leaves a key file that opens every secret; and no journal, unless
      removing it failed. */
  lemma RotationReturnsSettled(states: seq<State>, i: nat)
    requires IsRun(true, states) && i + 1 < |states| && states[i].at.DropJournal? && states[i + 1].at.Returned?
    ensures Opens(states[i + 1].disk)
    ensures states[i + 1].disk.journal.None? ==> Settled(states[i + 1].disk)
    ensures states[i + 1].disk.journal.Some? ==> states[i + 1].disk == states[i].disk
  {
    NoSecretStranded(states, i);
    assert Next(true, states[i], states[i + 1]);
  }

  // ----- what the code takes for granted -----

  /** The probe's answer, if this step is one, is right about what the keys open: the rotation is rolled back only
      when the key file opens every secret, and finished only when the temp file does. */
  predicate SoundProbe(s: State, s': State) {
    && (s.at.ProbePending? && s'.at.RollbackTemp? ==> Opens(s.disk))
    && (s.at.ProbePending? && s'.at.ResumePending? ==> TempOpens(s.disk, s.at.path))
  }

  /** This step goes on as if there were no journal, or as if the key it names were installed, though both are there:
      what it looked for could not be read. */
  predicate Misreads(s: State, s': State) {
    || (s.at.RotateStart? && s'.at.Sweep? && s.disk.journal.Some?)
    || (s.at.ResumeInstall? && s'.at.DropJournal? && s'.disk == s.disk && s.at.path in s.disk.temps)
    || (s.at.LoadInstall? && s'.at.LoadDrop? && s'.disk == s.disk && s.at.path in s.disk.temps)
    || (s.at.LoadCheck? && (s'.at.CreateTemp? || s'.at.Loaded?) && IsPending(s.disk))
  }

  /** A failing read does no harm: the key file opens every secret. Where LoadKey alone takes a key to be installed,
      and so goes on to give the installed one, the two are one key. */
  predicate SoundRead(s: State, s': State) {
    Misreads(s, s') ==> Opens(s.disk) && (s.at.LoadInstall? && !s.at.rotating ==> Agrees(s.disk))
  }

  predicate Sound(s: State, s': State) {
    SoundProbe(s, s') && SoundRead(s, s')
  }

  predicate AllSound(states: seq<State>) {
    forall k :: 0 <= k < |states| - 1 ==> Sound(states[k], states[k + 1])
  }

  /** Whatever happens next, no secret is stranded. */
  ghost predicate NextIsSafe(s: State) {
    forall s' :: Next(false, s, s') ==> Safe(s'.disk)
  }

  /** What can follow s when, from now on, the probe is exact and every read succeeds. */
  predicate GoesOn(s: State, states: seq<State>) {
    && states != [] && states[0] == s
    && forall i :: 0 <= i < |states| - 1 ==> Next(true, states[i], states[i + 1])
  }

  /** Whatever went wrong before s, no secret is stranded at s, nor later unless something more goes wrong. */
  ghost predicate SafeOnwards(s: State) {
    forall states: seq<State> :: GoesOn(s, states) ==> Safe(states[|states| - 1].disk)
  }

  /** Rolling a pending rotation back leaves no secret stranded exactly when the old key still opens every one, as it
      does when no secret opens under the new key. */
  lemma RollbackSafeIff(d: Disk, p: Path)
    requires Safe(d) && d.journal == Some(Pending(p))
    ensures Safe(RemoveTemp(d, p)) <==> Opens(d)
    ensures !TempOpens(d, p) || !OpensAny(d, d.temps[p].key) ==> Opens(d)
  {}

  /** What each failing read leads to is safe exactly when the key file opens every secret: sweeping the temp files
      under a journal, dropping the journal, and storing a secret under the installed key while a rotation is
      pending. */
  lemma MisreadSafeIff(d: Disk)
    requires Safe(d) && d.journal.Some?
    ensures (forall p :: p in d.temps ==> Safe(RemoveTemp(d, p))) <==> Opens(d)
    ensures Safe(RemoveJournal(d)) <==> Opens(d)
    ensures IsPending(d) ==> (Safe(AddSecret(d, d.key.key)) <==> Opens(d))
  {
    var p := d.journal.value.path;
    if !Opens(d) {
      assert p in d.temps && !Safe(RemoveTemp(d, p));
      var i :| 0 <= i < |d.secrets| && d.secrets[i] != d.key.key;
      assert AddSecret(d, d.key.key).secrets[i] == d.secrets[i];
      assert AddSecret(d, d.key.key).secrets[|d.secrets|] == d.key.key;
    }
  }

  /** An exact probe is sound: one secret that opens under the new key says that they all do. And where every file can
      be read, nothing is misread. */
  lemma ExactIsSound(s: State, s': State)
    requires Inv(s) && Next(true, s, s')
    ensures Sound(s, s')
  {}

  lemma ProbeKeeps(s: State, s': State)
    requires Inv(s) && s.at.ProbePending? && RotateStep(false, s.disk, s.at, s'.disk, s'.at)
    ensures Safe(s'.disk) && (SoundProbe(s, s') ==> Inv(s'))
  {}

  lemma MisreadKeeps(s: State, s': State)
    requires Inv(s) && CodeStep(false, s.disk, s.at, s'.disk, s'.at) && Misreads(s, s')
    ensures s'.disk == s.disk && (SoundRead(s, s') ==> Inv(s'))
  {}

  lemma NothingWrong(s: State, s': State)
    requires !s.at.ProbePending? && !Misreads(s, s') && CodeStep(false, s.disk, s.at, s'.disk, s'.at)
    ensures CodeStep(true, s.disk, s.at, s'.disk, s'.at)
  {}

  /** Any step leaves every secret within reach; and a sound one keeps the rest too. */
  lemma SoundStepKeeps(s: State, s': State)
    requires Inv(s) && Next(false, s, s')
    ensures Safe(s'.disk) && (Sound(s, s') ==> Inv(s'))
  {
    hide RotateStep, LoadStep, WorldStep, Knows, SoundProbe, SoundRead, Misreads, CodeStep, Safe;
    if !CodeStep(false, s.disk, s.at, s'.disk, s'.at) {
      WorldStepKeeps(s, s');
    } else if Misreads(s, s') {
      MisreadKeeps(s, s');
    } else if s.at.ProbePending? {
      OnlyProbes(s, s');
      ProbeKeeps(s, s');
    } else {
      NothingWrong(s, s');
      StepKeeps(s, s');
    }
  }

  lemma OnlyProbes(s: State, s': State)
    requires s.at.ProbePending? && CodeStep(false, s.disk, s.at, s'.disk, s'.at)
    ensures RotateStep(false, s.disk, s.at, s'.disk, s'.at)
  {}

  lemma {:induction false} SoundStepsKeep(states: seq<State>, i: nat)
    requires IsRun(false, states) && i < |states| && forall k :: 0 <= k < i ==> Sound(states[k], states[k + 1])
    ensures Inv(states[i])
  {
    if i > 0 {
      SoundStepsKeep(states, i - 1);
      hide Next, Sound;
      SoundStepKeeps(states[i - 1], states[i]);
    }
  }

  lemma {:induction false} InvGoesOn(s: State, states: seq<State>, i: nat)
    requires Inv(s) && GoesOn(s, states) && i < |states|
    ensures Inv(states[i])
  {
    if i > 0 {
      InvGoesOn(s, states, i - 1);
      hide Next, Inv;
      StepKeeps(states[i - 1], states[i]);
    }
  }

  lemma InvIsSafe(s: State)
    requires Inv(s)
    ensures SafeOnwards(s) && NextIsSafe(s)
  {
    hide Next;
    forall states: seq<State> | GoesOn(s, states) ensures Safe(states[|states| - 1].disk) {
      InvGoesOn(s, states, |states| - 1);
    }
    hide Inv;
    forall s' | Next(false, s, s') ensures Safe(s'.disk) {
      SoundStepKeeps(s, s');
    }
  }

  lemma StrandsNext(s: State, s': State)
    requires Next(true, s, s') && !Safe(s'.disk)
    ensures !SafeOnwards(s)
  {
    hide Next;
    assert GoesOn(s, [s, s']);
  }

  lemma StrandsLater(s: State, s': State)
    requires Next(true, s, s') && !SafeOnwards(s')
    ensures !SafeOnwards(s)
  {
    hide Next, Safe;
    var states: seq<State> :| GoesOn(s', states) && !Safe(states[|states| - 1].disk);
    assert GoesOn(s, [s] + states);
  }

  lemma InstallStrands(d: Disk, p: Path)
    requires Safe(d) && d.journal == Some(Pending(p)) && p in d.temps && !TempOpens(d, p)
    ensures !Safe(Install(d, p))
  {}

  /** After an unsound answer the step the code takes next strands secrets. */
  lemma UnsoundProbeStrands(s: State, s': State)
    requires Inv(s) && Next(false, s, s') && !SoundProbe(s, s')
    ensures !SafeOnwards(s')
  {
    var p := s.at.path;
    if s'.at.RollbackTemp? {
      RollbackSafeIff(s.disk, p);
      StrandsNext(s', State(RemoveTemp(s.disk, p), RollbackJournal));
    } else {
      InstallStrands(s.disk, p);
      StrandsNext(s', State(Install(s.disk, p), DropJournal));
    }
  }

  lemma SweepStrands(d: Disk, p: Path)
    requires p in d.temps && !Safe(RemoveTemp(d, p))
    ensures !SafeOnwards(State(d, Sweep))
  {
    hide Safe, SafeOnwards, LoadStep, WorldStep;
    StrandsNext(State(d, Sweep), State(RemoveTemp(d, p), Sweep));
  }

  lemma DropStrands(d: Disk, at: Place)
    requires !Safe(RemoveJournal(d)) && at in {DropJournal, LoadDrop(true), LoadDrop(false)}
    ensures !SafeOnwards(State(d, at))
  {
    hide Safe, SafeOnwards, WorldStep;
    StrandsNext(State(d, at), State(RemoveJournal(d), if at.DropJournal? then Returned else LoadCheck(at.rotating)));
  }

  lemma StoreStrands(d: Disk, k: Key)
    requires !Safe(AddSecret(d, k))
    ensures !SafeOnwards(State(d, Loaded(k)))
  {
    hide Safe, SafeOnwards, RotateStep, WorldStep;
    StrandsNext(State(d, Loaded(k)), State(AddSecret(d, k), Loaded(k)));
  }

  /** The places a failing read leads to strand secrets that the key file does not open. */
  lemma LostPlaces(d: Disk, at: Place)
    requires Safe(d) && d.journal.Some? && !Opens(d)
    requires at in {Sweep, DropJournal, LoadDrop(true), LoadDrop(false)} || (at == Loaded(d.key.key) && IsPending(d))
    ensures !SafeOnwards(State(d, at))
  {
    MisreadSafeIff(d);
    hide Safe, Opens, SafeOnwards;
    if at.Sweep? {
      var p :| p in d.temps && !Safe(RemoveTemp(d, p));
      SweepStrands(d, p);
    } else if at.Loaded? {
      StoreStrands(d, d.key.key);
    } else {
      DropStrands(d, at);
    }
  }

  lemma UnsoundReadLeads(s: State, s': State)
    requires Inv(s) && Next(false, s, s') && !SoundRead(s, s')
    ensures var d := s.disk;
            && s'.disk == d && Safe(d) && d.journal.Some?
            && if Opens(d) then s'.at == LoadDrop(false) && d.journal.value.Committed? && !Agrees(d)
               else s'.at in {Sweep, DropJournal, LoadDrop(true), LoadDrop(false), Loaded(d.key.key)}
                    && (s'.at.Loaded? ==> IsPending(d))
  {}

  /** After an unsound read the steps the code takes next strand secrets, though it reads everything from then on. */
  lemma UnsoundReadStrands(s: State, s': State)
    requires Inv(s) && Next(false, s, s') && !SoundRead(s, s')
    ensures !SafeOnwards(s')
  {
    UnsoundReadLeads(s, s');
    hide Next, Inv, SoundRead, SafeOnwards, Safe, Opens;
    if Opens(s.disk) {
      UnseenKeyStrands(s.disk, s.disk.journal.value.path);
    } else {
      LostPlaces(s.disk, s'.at);
    }
  }

  /** LoadKey takes the new key for installed, cannot remove the journal, and gives the old key: a secret stored under
      that is lost when the new key is installed after all. */
  lemma UnseenKeyStrands(d: Disk, p: Path)
    requires Safe(d) && Opens(d) && d.journal == Some(Committed(p)) && p in d.temps && d.temps[p] != d.key
    ensures !SafeOnwards(State(d, LoadDrop(false)))
  {
    var k := d.key.key;
    var s := State(d, Loaded(k));
    assert AddSecret(d, k).secrets[|d.secrets|] == k;
    StrandsNext(s, State(AddSecret(d, k), Loaded(k)));
    StrandsLater(State(d, LoadCheck(false)), s);
    StrandsLater(State(d, LoadDrop(false)), State(d, LoadCheck(false)));
  }

  /** Whatever the probe answers, whichever reads fail and whenever the process dies: at no point of a run is a secret
      stranded, or bound to be in a way that needs nothing more to go wrong, exactly when every answer and every
      failing read was sound; and then no single step strands one, whatever goes wrong in it. */
  lemma SafeExactlyWhenSound(states: seq<State>)
    requires IsRun(false, states)
    ensures AllSound(states) <==> forall i :: 0 <= i < |states| ==> SafeOnwards(states[i])
    ensures AllSound(states) ==> forall i :: 0 <= i < |states| ==> NextIsSafe(states[i])
  {
    hide Next, Sound, SafeOnwards, NextIsSafe;
    if AllSound(states) {
      forall i | 0 <= i < |states| ensures SafeOnwards(states[i]) && NextIsSafe(states[i]) {
        SoundStepsKeep(states, i);
        InvIsSafe(states[i]);
      }
    } else {
      var k := FirstUnsound(states, |states| - 1);
      SoundStepsKeep(states, k);
      UnsoundStrands(states[k], states[k + 1]);
    }
  }

  lemma UnsoundStrands(s: State, s': State)
    requires Inv(s) && Next(false, s, s') && !Sound(s, s')
    ensures !SafeOnwards(s')
  {
    hide Next, Inv, SafeOnwards, SoundProbe, SoundRead;
    if SoundProbe(s, s') {
      UnsoundReadStrands(s, s');
    } else {
      UnsoundProbeStrands(s, s');
    }
  }

  lemma {:induction false} FirstUnsound(states: seq<State>, n: nat) returns (k: nat)
    requires n < |states| && exists m :: 0 <= m < n && !Sound(states[m], states[m + 1])
    ensures k < n && !Sound(states[k], states[k + 1]) && forall m :: 0 <= m < k ==> Sound(states[m], states[m + 1])
  {
    hide Sound;
    if exists m :: 0 <= m < n - 1 && !Sound(states[m], states[m + 1]) {
      k := FirstUnsound(states, n - 1);
    } else {
      k := n - 1;
    }
  }

  /** A probe that cannot read the secrets, and so answers no, strands them: the database was committed, the process
      died before the journal said so, and the next rotation removes the only file that holds the key. */
  lemma MissedProbeStrands() returns (states: seq<State>)
    ensures IsRun(false, states) && |states| == 15
    ensures !Safe(states[14].disk) && !Opens(states[14].disk) && states[14].disk.temps == map[]
  {
    var d: Disk;
    states, d := DiesBeforeAdvance();
    hide IsRun;
    var d' := RemoveTemp(d, 7);
    states := Started(states, State(d, RotateStart));
    hide WorldStep, LoadStep;
    states := Extended(false, states, State(d, ProbePending(7)));
    states := Extended(false, states, State(d, RollbackTemp(7)));
    states := Extended(false, states, State(d', RollbackJournal));
    assert d'.secrets[0] == 2 && d'.key == Whole(1);
    assert d'.temps == map[];
  }

  predicate NeverProbes(states: seq<State>) {
    forall i :: 0 <= i < |states| ==> !states[i].at.ProbePending?
  }

  /** So does a failing read of the journal, and no probe is asked: after the same crash the next rotation goes on as
      if there were none and sweeps the temp file, which alone holds the key. */
  lemma UnreadJournalStrands() returns (states: seq<State>)
    ensures IsRun(false, states) && |states| == 14 && NeverProbes(states)
    ensures !Safe(states[13].disk) && !Opens(states[13].disk) && states[13].disk.temps == map[]
  {
    var d: Disk;
    states, d := DiesBeforeAdvance();
    hide IsRun, WorldStep, LoadStep;
    var d' := RemoveTemp(d, 7);
    states := Started(states, State(d, RotateStart));
    states := Extended(false, states, State(d, Sweep));
    states := Extended(false, states, State(d', Sweep));
    assert d'.secrets[0] == 2 && d'.key == Whole(1);
    assert d'.temps == map[];
  }

  /** The run up to the crash between the database's commit and the journal's. */
  lemma DiesBeforeAdvance() returns (states: seq<State>, d: Disk)
    ensures IsRun(false, states) && NeverProbes(states) && |states| == 11 && states[10] == State(d, Idle)
    ensures d == Disk(Whole(1), map[7 := Whole(2)], Some(Pending(7)), [2])
  {
    states := JournalsPending();
    hide IsRun, WorldStep, LoadStep;
    var d3 := Disk(Whole(1), map[7 := Whole(2)], Some(Pending(7)), [1]);
    d := Reencrypt(d3, 2);
    assert d.secrets == [2];
    states := Extended(false, states, State(d, Advance(7, 2)));
    states := Died(states, State(d, Idle));
  }

  lemma JournalsPending() returns (states: seq<State>)
    ensures IsRun(false, states) && NeverProbes(states) && |states| == 9
    ensures states[8] == State(Disk(Whole(1), map[7 := Whole(2)], Some(Pending(7)), [1]), Encrypting(1, 7, 2))
  {
    states := FillsTemp();
    hide IsRun, WorldStep, LoadStep;
    var d := Disk(Whole(1), map[7 := Whole(2)], None, [1]);
    states := Extended(false, states, State(WriteJournal(d, Pending(7)), Encrypting(1, 7, 2)));
  }

  lemma FillsTemp() returns (states: seq<State>)
    ensures IsRun(false, states) && NeverProbes(states) && |states| == 8
    ensures states[7] == State(Disk(Whole(1), map[7 := Whole(2)], None, [1]), Journalled(1, 7, 2))
  {
    states := RotatesFrom(1);
    hide IsRun, WorldStep, LoadStep;
    var d := WriteTemp(Disk(Whole(1), map[], None, [1]), 7, Partial);
    var d' := Disk(Whole(1), map[7 := Whole(2)], None, [1]);
    assert d' == WriteTemp(d, 7, Whole(2));
    states := Extended(false, states, State(d, FillTemp(1, 7)));
    states := Extended(false, states, State(d', Journalled(1, 7, 2)));
  }

  /** A rotation starts on a settled workspace with one secret. */
  lemma RotatesFrom(k: Key) returns (states: seq<State>)
    ensures IsRun(false, states) && NeverProbes(states) && |states| == 6
    ensures states[5] == State(Disk(Whole(k), map[], None, [k]), CreateTemp(k))
  {
    var d := Disk(Whole(k), map[], None, [k]);
    states := [State(d, Idle)];
    assert IsRun(false, states);
    hide IsRun, WorldStep;
    states := Started(states, State(d, RotateStart));
    states := Extended(false, states, State(d, Sweep));
    states := Extended(false, states, State(d, LoadStart(true)));
    states := Extended(false, states, State(d, LoadCheck(true)));
    states := Extended(false, states, State(d, CreateTemp(k)));
  }

  /** A run goes on with any next step. */
  lemma Extended(exact: bool, states: seq<State>, s: State) returns (longer: seq<State>)
    requires IsRun(exact, states) && Next(exact, states[|states| - 1], s)
    ensures IsRun(exact, longer) && longer == states + [s]
  {
    longer := states + [s];
  }

  lemma Started(states: seq<State>, s: State) returns (longer: seq<State>)
    requires IsRun(false, states) && states[|states| - 1] == State(s.disk, Idle) && s.at.RotateStart?
    ensures IsRun(false, longer) && longer == states + [s]
  {
    longer := Extended(false, states, s);
  }

  lemma Died(states: seq<State>, s: State) returns (longer: seq<State>)
    requires IsRun(false, states) && states[|states| - 1].disk == s.disk && s.at.Idle?
    ensures IsRun(false, longer) && longer == states + [s]
  {
    longer := Extended(false, states, s);
  }
}
