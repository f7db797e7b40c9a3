/** Publishing the patched toolchain root: any number of processes, each checking, building in a
    private directory, and renaming it into one shared place.  Every file system call is one
    atomic step, and the content check is one step per file it looks at. */
module PublishProtocol {
  import opened Options

  type Path = string

  datatype FileSize = FileSize(path: Path, size: nat)

  /** Written last inside a build: which build this is, and the size of every file. */
  datatype Marker = Marker(stamp: string, files: seq<FileSize>)

  datatype Tree = Tree(marker: Option<Marker>, files: map<Path, nat>)

  /** The files of the toolchain, and their sizes once patched. */
  datatype Identity = Identity(stamp: string, files: seq<Path>, built: map<Path, nat>)

  ghost predicate ValidIdentity(id: Identity) {
    forall i: nat :: i < |id.files| ==> id.files[i] in id.built
  }

  const MAX_PUBLISH_ATTEMPTS: nat := 4

  // ----- trees --------------------------------------------------------------------------------------------

  predicate MarkerFits(id: Identity, m: Marker) {
    m.stamp == id.stamp && |m.files| == |id.files|
  }

  /** The file the marker lists at `i` is the one expected there, and has that size. */
  predicate FileFits(id: Identity, m: Marker, files: map<Path, nat>, i: nat)
    requires i < |m.files| && i < |id.files|
  {
    m.files[i].path == id.files[i] && m.files[i].path in files && files[m.files[i].path] == m.files[i].size
  }

  predicate Complete(id: Identity, t: Tree) {
    && t.marker.Some? && MarkerFits(id, t.marker.value)
    && forall i: nat :: i < |id.files| ==> FileFits(id, t.marker.value, t.files, i)
  }

  predicate Empty(t: Tree) {
    t.marker == None && t.files == map[]
  }

  function BuiltTree(id: Identity): Tree
    requires forall i: nat :: i < |id.files| ==> id.files[i] in id.built
  {
    var sizes := seq(|id.files|, i requires 0 <= i < |id.files| => FileSize(id.files[i], id.built[id.files[i]]));
    Tree(Some(Marker(id.stamp, sizes)), id.built)
  }

  lemma BuiltIsComplete(id: Identity)
    requires ValidIdentity(id)
    ensures Complete(id, BuiltTree(id)) && !Empty(BuiltTree(id))
  {
  }

  // ----- one process ----------------------------------------------------------------------------------------

  datatype Look = LookRoot | LookMarker | LookFile(i: nat, marker: Marker)

  /** `attempt` is absent in the check before building. */
  datatype Pc =
    | Checking(look: Look, attempt: Option<nat>)
    | Building(copied: nat)
    | Renaming(k: nat)
    | MovingAside(k: nat)
    | Removing(k: nat)
    | Cleaning(ok: bool)
    | Returned
    | Failed

  datatype Outcome = Outcome(root: Option<Tree>, pc: Pc)

  function OnInvalid(attempt: Option<nat>): Pc {
    match attempt
    case None => Building(0)
    case Some(k) => MovingAside(k)
  }

  function OnValid(attempt: Option<nat>): Pc {
    match attempt
    case None => Returned
    case Some(_) => Cleaning(true)
  }

  function NextAttempt(k: nat): Pc {
    if k + 1 < MAX_PUBLISH_ATTEMPTS then Renaming(k + 1) else Cleaning(false)
  }

  /** One look of the content check. */
  function CheckStep(id: Identity, root: Option<Tree>, look: Look, attempt: Option<nat>): Pc {
    match look
    case LookRoot => if root == None then OnInvalid(attempt) else Checking(LookMarker, attempt)
    case LookMarker =>
      if root == None || root.value.marker == None || !MarkerFits(id, root.value.marker.value) then OnInvalid(attempt)
      else Checking(LookFile(0, root.value.marker.value), attempt)
    case LookFile(i, m) =>
      if i >= |m.files| then OnValid(attempt)
      else if i >= |id.files| || root == None || !FileFits(id, m, root.value.files, i) then OnInvalid(attempt)
      else Checking(LookFile(i + 1, m), attempt)
  }

  /** Renaming a directory succeeds if nothing, or an empty directory, is in the way. */
  predicate Free(root: Option<Tree>) {
    root == None || Empty(root.value)
  }

  function Step(id: Identity, root: Option<Tree>, pc: Pc): Outcome
    requires forall i: nat :: i < |id.files| ==> id.files[i] in id.built
  {
    match pc
    case Checking(look, attempt) => Outcome(root, CheckStep(id, root, look, attempt))
    case Building(k) => Outcome(root, if k < |id.files| then Building(k + 1) else Renaming(0))
    case Renaming(k) =>
      if Free(root) then Outcome(Some(BuiltTree(id)), Cleaning(true))
      else Outcome(root, Checking(LookRoot, Some(k)))
    case MovingAside(k) => if root == None then Outcome(root, NextAttempt(k)) else Outcome(None, Removing(k))
    case Removing(k) => Outcome(root, NextAttempt(k))
    case Cleaning(ok) => Outcome(root, if ok then Returned else Failed)
    case Returned => Outcome(root, Returned)
    case Failed => Outcome(root, Failed)
  }

  // ----- runs -----------------------------------------------------------------------------------------------

  datatype State = State(root: Option<Tree>, pcs: seq<Pc>)

  /** A process takes its next step; or an operation of its own fails and it gives up; or a read
      inside its content check fails, which the check takes for an invalid root. */
  datatype Action = Runs(p: nat) | Gives(p: nat) | Misreads(p: nat)

  function Act(id: Identity, s: State, a: Action): (r: State)
    requires forall i: nat :: i < |id.files| ==> id.files[i] in id.built
    ensures |r.pcs| == |s.pcs|
  {
    if a.p >= |s.pcs| then s
    else
      match a
      case Runs(p) =>
        var o := Step(id, s.root, s.pcs[p]);
        State(o.root, s.pcs[p := o.pc])
      case Gives(p) =>
        if s.pcs[p].Building? || s.pcs[p].Renaming? || s.pcs[p].MovingAside? || s.pcs[p].Removing? then
          s.(pcs := s.pcs[p := Cleaning(false)])
        else s
      case Misreads(p) => if s.pcs[p].Checking? then s.(pcs := s.pcs[p := OnInvalid(s.pcs[p].attempt)]) else s
  }

  function After(id: Identity, s: State, actions: seq<Action>): (r: State)
    requires forall i: nat :: i < |id.files| ==> id.files[i] in id.built
    ensures |r.pcs| == |s.pcs|
    decreases |actions|
  {
    if |actions| == 0 then s else After(id, Act(id, s, actions[0]), actions[1..])
  }

  /** A read fails in the check that follows a collision. */
  ghost predicate LateMisread(s: State, a: Action) {
    a.Misreads? && a.p < |s.pcs| && s.pcs[a.p].Checking? && s.pcs[a.p].attempt.Some?
  }

  /** No read fails after a collision; in the check before building, any may. */
  ghost predicate Careful(id: Identity, s: State, actions: seq<Action>)
    requires forall i: nat :: i < |id.files| ==> id.files[i] in id.built
    decreases |actions|
  {
    |actions| == 0 || (!LateMisread(s, actions[0]) && Careful(id, Act(id, s, actions[0]), actions[1..]))
  }

  ghost predicate AllStarting(pcs: seq<Pc>) {
    forall p: nat :: p < |pcs| ==> pcs[p] == Checking(LookRoot, None)
  }

  // ----- from an absent, empty or complete root -----------------------------------------------------------------

  /** Nothing incomplete is in the way. */
  predicate Clear(id: Identity, root: Option<Tree>) {
    Free(root) || Complete(id, root.value)
  }

  /** What a process may be doing, given the root. */
  ghost predicate PcFits(id: Identity, root: Option<Tree>, pc: Pc) {
    match pc
    case Checking(LookRoot, attempt) => attempt.Some? ==> !Free(root)
    case Checking(LookMarker, attempt) => root.Some? && (attempt.Some? ==> !Free(root))
    case Checking(LookFile(i, m), attempt) =>
      !Free(root) && root.value.marker == Some(m) && i <= |id.files| && |m.files| == |id.files|
    case Building(_) => true
    case Renaming(k) => k == 0
    case MovingAside(_) => false
    case Removing(_) => false
    case Cleaning(ok) => ok ==> !Free(root)
    case Returned => !Free(root)
    case Failed => true
  }

  ghost predicate Inv(id: Identity, s: State) {
    Clear(id, s.root) && forall p: nat :: p < |s.pcs| ==> PcFits(id, s.root, s.pcs[p])
  }

  lemma StepKeepsFit(id: Identity, root: Option<Tree>, pc: Pc)
    requires ValidIdentity(id) && Clear(id, root) && PcFits(id, root, pc)
    ensures var o := Step(id, root, pc);
      Clear(id, o.root) && PcFits(id, o.root, o.pc) && (o.root == root || (Free(root) && !Free(o.root)))
  {
    BuiltIsComplete(id);
    if pc.Checking? && pc.look.LookFile? && pc.look.i < |id.files| {
      assert FileFits(id, pc.look.marker, root.value.files, pc.look.i);
    }
  }

  /** The others do not notice a step, unless the root appears, which takes nothing from them. */
  lemma OthersStillFit(id: Identity, root: Option<Tree>, root': Option<Tree>, pc: Pc)
    requires PcFits(id, root, pc) && (root' == root || (Free(root) && !Free(root')))
    ensures PcFits(id, root', pc)
  {
  }

  lemma ActKeepsInv(id: Identity, s: State, a: Action)
    requires ValidIdentity(id) && Inv(id, s) && !LateMisread(s, a)
    ensures var s' := Act(id, s, a);
      Inv(id, s') && (s'.root == s.root || (Free(s.root) && !Free(s'.root)))
  {
    hide Step, PcFits, Clear;
    var s' := Act(id, s, a);
    if a.p < |s.pcs| && a.Runs? {
      StepKeepsFit(id, s.root, s.pcs[a.p]);
      forall p: nat | p < |s.pcs|
        ensures PcFits(id, s'.root, s'.pcs[p])
      {
        if p != a.p {
          OthersStillFit(id, s.root, s'.root, s.pcs[p]);
        }
      }
    } else if a.p < |s.pcs| {
      assert PcFits(id, s.root, Cleaning(false)) && PcFits(id, s.root, Building(0)) by { FailuresFit(id, s.root); }
    }
  }

  lemma FailuresFit(id: Identity, root: Option<Tree>)
    ensures PcFits(id, root, Cleaning(false)) && PcFits(id, root, Building(0))
  {
  }

  lemma {:induction false} RunKeepsInv(id: Identity, s: State, actions: seq<Action>)
    requires ValidIdentity(id) && Inv(id, s) && Careful(id, s, actions)
    ensures Inv(id, After(id, s, actions)) && (!Free(s.root) ==> After(id, s, actions).root == s.root)
    decreases |actions|
  {
    hide Inv, Act, Free, LateMisread;
    if |actions| > 0 {
      ActKeepsInv(id, s, actions[0]);
      RunKeepsInv(id, Act(id, s, actions[0]), actions[1..]);
    }
  }

  /** Under every interleaving from an absent, empty or complete root, as long as no read fails in
      a check that follows a collision: the root, once there, stays there unchanged and is complete;
      no process ever moves it aside; and every process that has returned has a complete root at the
      shared path. */
  lemma PublishingIsSafe(id: Identity, root: Option<Tree>, pcs: seq<Pc>, before: seq<Action>, then': seq<Action>)
    requires ValidIdentity(id) && Clear(id, root) && AllStarting(pcs)
    requires Careful(id, State(root, pcs), before) && Careful(id, After(id, State(root, pcs), before), then')
    ensures var mid := After(id, State(root, pcs), before);
      var end := After(id, mid, then');
      && (!Free(mid.root) ==> Complete(id, mid.root.value) && end.root == mid.root)
      && (forall p: nat :: p < |pcs| ==> !mid.pcs[p].MovingAside? && !mid.pcs[p].Removing?)
      && (forall p: nat :: p < |pcs| && mid.pcs[p] == Returned ==> !Free(end.root) && Complete(id, end.root.value))
  {
    var s := State(root, pcs);
    assert Inv(id, s);
    RunKeepsInv(id, s, before);
    var mid := After(id, s, before);
    RunKeepsInv(id, mid, then');
    hide After, Complete;
    forall p: nat | p < |pcs|
      ensures !mid.pcs[p].MovingAside? && !mid.pcs[p].Removing?
      ensures mid.pcs[p] == Returned ==> !Free(mid.root)
    {
      assert PcFits(id, mid.root, mid.pcs[p]);
    }
  }

  /** What a complete root is, spelled out: its marker carries the toolchain's stamp and lists the
      toolchain's files in order, and each is there with the size listed. */
  ghost predicate HoldsToolchain(id: Identity, t: Tree) {
    && t.marker.Some? && t.marker.value.stamp == id.stamp && |t.marker.value.files| == |id.files|
    && forall i: nat :: i < |id.files| ==>
         && t.marker.value.files[i].path == id.files[i] && id.files[i] in t.files
         && t.files[id.files[i]] == t.marker.value.files[i].size
  }

  lemma CompleteHoldsToolchain(id: Identity, t: Tree)
    ensures Complete(id, t) <==> HoldsToolchain(id, t)
  {
    if Complete(id, t) {
      forall i: nat | i < |id.files|
        ensures t.marker.value.files[i].path == id.files[i] && id.files[i] in t.files
        ensures t.files[id.files[i]] == t.marker.value.files[i].size
      {
        assert FileFits(id, t.marker.value, t.files, i);
      }
    }
  }

  /** A process that has returned has the toolchain at the shared path from then on; if it was
      published during the run, with the sizes the patched files have. */
  lemma ReturnedHoldsToolchain(id: Identity, root: Option<Tree>, pcs: seq<Pc>, before: seq<Action>,
                               then': seq<Action>, p: nat)
    requires ValidIdentity(id) && Clear(id, root) && AllStarting(pcs) && p < |pcs|
    requires Careful(id, State(root, pcs), before) && Careful(id, After(id, State(root, pcs), before), then')
    requires After(id, State(root, pcs), before).pcs[p] == Returned
    ensures var end := After(id, After(id, State(root, pcs), before), then');
      && end.root.Some? && HoldsToolchain(id, end.root.value)
      && (Free(root) ==> forall i: nat :: i < |id.files| ==> end.root.value.files[id.files[i]] == id.built[id.files[i]])
  {
    PublishingIsSafe(id, root, pcs, before, then');
    var end := After(id, After(id, State(root, pcs), before), then');
    CompleteHoldsToolchain(id, end.root.value);
    AfterAppend(id, State(root, pcs), before, then');
    RootIsBuilt(id, State(root, pcs), before + then');
  }

  /** Whatever takes the place of a root was built by some process. */
  lemma {:induction false} RootIsBuilt(id: Identity, s: State, actions: seq<Action>)
    requires ValidIdentity(id)
    ensures var r := After(id, s, actions).root; r == s.root || r == None || r == Some(BuiltTree(id))
    decreases |actions|
  {
    hide BuiltTree, CheckStep, Free;
    if |actions| > 0 {
      RootIsBuilt(id, Act(id, s, actions[0]), actions[1..]);
    }
  }

  ghost predicate Unfailed(pc: Pc) {
    pc != Cleaning(false) && pc != Failed
  }

  /** Nobody fails on account of the others: without failures of operations outside the first
      check, no process gives up. */
  lemma {:induction false} NobodyIsBeaten(id: Identity, s: State, actions: seq<Action>)
    requires ValidIdentity(id) && Inv(id, s) && Careful(id, s, actions)
    requires forall p: nat :: p < |s.pcs| ==> Unfailed(s.pcs[p])
    requires forall i: nat :: i < |actions| ==> !actions[i].Gives?
    ensures forall p: nat :: p < |s.pcs| ==> Unfailed(After(id, s, actions).pcs[p])
    decreases |actions|
  {
    hide Free, Clear, CheckStep;
    if |actions| > 0 {
      var a, s' := actions[0], Act(id, s, actions[0]);
      ActKeepsInv(id, s, a);
      if a.p < |s.pcs| {
        assert PcFits(id, s.root, s.pcs[a.p]);
        CheckUnfailed(id, s.root, s.pcs[a.p]);
      }
      NobodyIsBeaten(id, s', actions[1..]);
    }
  }

  lemma CheckUnfailed(id: Identity, root: Option<Tree>, pc: Pc)
    requires PcFits(id, root, pc)
    ensures pc.Checking? ==> Unfailed(CheckStep(id, root, pc.look, pc.attempt))
  {
  }

  // ----- every process ends -------------------------------------------------------------------------------------

  function LookRank(id: Identity, look: Look): nat {
    match look
    case LookRoot => |id.files| + 3
    case LookMarker => |id.files| + 2
    case LookFile(i, _) => if i < |id.files| then |id.files| - i + 1 else 1
  }

  function AttemptRank(id: Identity, k: nat): nat
    decreases MAX_PUBLISH_ATTEMPTS - k
  {
    if k < MAX_PUBLISH_ATTEMPTS then AttemptRank(id, k + 1) + |id.files| + 6 else 1
  }

  /** How many steps of its own a process still takes, at most, whatever the others do. */
  function Rank(id: Identity, pc: Pc): nat {
    match pc
    case Checking(look, Some(k)) => AttemptRank(id, k) + LookRank(id, look) + 2
    case Checking(look, None) => AttemptRank(id, 0) + 2 * |id.files| + 8 + LookRank(id, look)
    case Building(k) => AttemptRank(id, 0) + |id.files| + 8 + if k < |id.files| then |id.files| - k else 0
    case Renaming(k) => AttemptRank(id, k) + |id.files| + 6
    case MovingAside(k) => AttemptRank(id, k) + 2
    case Removing(k) => AttemptRank(id, k) + 1
    case Cleaning(_) => 1
    case Returned => 0
    case Failed => 0
  }

  predicate Ended(pc: Pc) {
    pc == Returned || pc == Failed
  }

  lemma StepRanks(id: Identity, root: Option<Tree>, pc: Pc)
    requires ValidIdentity(id)
    ensures if Ended(pc) then Step(id, root, pc).pc == pc else Rank(id, Step(id, root, pc).pc) < Rank(id, pc)
    ensures Ended(pc) <==> Rank(id, pc) == 0
  {
    if pc.Checking? {
      CheckRanks(id, root, pc.look, pc.attempt);
    } else if pc.MovingAside? || pc.Removing? {
      assert pc.k < MAX_PUBLISH_ATTEMPTS ==> AttemptRank(id, pc.k) == AttemptRank(id, pc.k + 1) + |id.files| + 6;
    }
    hide CheckStep, AttemptRank, BuiltTree, Free, LookRank;
  }

  lemma CheckRanks(id: Identity, root: Option<Tree>, look: Look, attempt: Option<nat>)
    ensures Rank(id, CheckStep(id, root, look, attempt)) < Rank(id, Checking(look, attempt))
  {
    hide AttemptRank;
  }

  function OwnSteps(actions: seq<Action>, p: nat): nat {
    if |actions| == 0 then 0 else OwnSteps(actions[1..], p) + if actions[0] == Runs(p) then 1 else 0
  }

  /** Under every interleaving a process that has taken so many steps has returned or failed. */
  lemma {:induction false} EveryProcessEnds(id: Identity, s: State, actions: seq<Action>, p: nat)
    requires ValidIdentity(id) && p < |s.pcs|
    ensures Rank(id, After(id, s, actions).pcs[p]) + OwnSteps(actions, p) <= Rank(id, s.pcs[p])
         || Ended(After(id, s, actions).pcs[p])
    decreases |actions|
  {
    hide Step, Rank;
    if |actions| > 0 {
      var a := actions[0];
      StepRanks(id, s.root, s.pcs[p]);
      FailingRanks(id, s.pcs[p]);
      EveryProcessEnds(id, Act(id, s, a), actions[1..], p);
      StepRanks(id, s.root, Act(id, s, a).pcs[p]);
      StepRanks(id, s.root, After(id, s, actions).pcs[p]);
    }
  }

  lemma StartingRank(id: Identity)
    ensures Rank(id, Checking(LookRoot, None)) == 7 * |id.files| + 36
  {
    assert AttemptRank(id, 4) == 1;
    assert AttemptRank(id, 3) == 1 + |id.files| + 6;
    assert AttemptRank(id, 2) == AttemptRank(id, 3) + |id.files| + 6;
    assert AttemptRank(id, 1) == AttemptRank(id, 2) + |id.files| + 6;
    assert AttemptRank(id, 0) == AttemptRank(id, 1) + |id.files| + 6;
  }

  /** Counted: seven steps per file of the toolchain and thirty-six more are enough for every process,
      through four attempts, whatever the others do. */
  lemma EveryProcessEndsWithin(id: Identity, root: Option<Tree>, pcs: seq<Pc>, actions: seq<Action>, p: nat)
    requires ValidIdentity(id) && AllStarting(pcs) && p < |pcs| && OwnSteps(actions, p) >= 7 * |id.files| + 36
    ensures Ended(After(id, State(root, pcs), actions).pcs[p])
  {
    hide After, Rank;
    EveryProcessEnds(id, State(root, pcs), actions, p);
    StartingRank(id);
    StepRanks(id, root, After(id, State(root, pcs), actions).pcs[p]);
  }

  /** Which attempt a process is at. */
  ghost predicate WithinAttempts(pc: Pc) {
    match pc
    case Checking(_, Some(k)) => k < 4
    case Renaming(k) => k < 4
    case MovingAside(k) => k < 4
    case Removing(k) => k < 4
    case _ => true
  }

  /** Four attempts: the fourth that fails is the last, and no earlier one is. */
  lemma FourAttempts()
    ensures NextAttempt(0) == Renaming(1) && NextAttempt(1) == Renaming(2) && NextAttempt(2) == Renaming(3)
    ensures NextAttempt(3) == Cleaning(false)
  {
  }

  lemma {:induction false} AttemptsStayWithin(id: Identity, s: State, actions: seq<Action>)
    requires ValidIdentity(id) && forall p: nat :: p < |s.pcs| ==> WithinAttempts(s.pcs[p])
    ensures forall p: nat :: p < |s.pcs| ==> WithinAttempts(After(id, s, actions).pcs[p])
    decreases |actions|
  {
    hide FileFits, MarkerFits, Free, BuiltTree;
    if |actions| > 0 {
      AttemptsStayWithin(id, Act(id, s, actions[0]), actions[1..]);
    }
  }

  /** Whatever a process does on its own account may fail, and it then cleans up and fails; and a read
      that fails in the check before building is among the runs that are safe. */
  lemma OperationsMayFail(id: Identity, s: State, p: nat)
    requires ValidIdentity(id) && p < |s.pcs|
    ensures s.pcs[p].Building? || s.pcs[p].Renaming? || s.pcs[p].MovingAside? || s.pcs[p].Removing? ==>
      Act(id, s, Gives(p)) == s.(pcs := s.pcs[p := Cleaning(false)])
    ensures s.pcs[p].Checking? && s.pcs[p].attempt == None ==>
      && Act(id, s, Misreads(p)) == s.(pcs := s.pcs[p := Building(0)])
      && !LateMisread(s, Misreads(p))
  {
  }

  /** Only nothing, or a directory with nothing in it, is in nobody's way. */
  lemma FreeExactly(root: Option<Tree>)
    ensures Free(root) <==> root == None || (root.value.marker == None && root.value.files.Keys == {})
  {
    if root.Some? && root.value.files.Keys == {} {
      assert root.value.files == map[];
    }
  }

  lemma FailingRanks(id: Identity, pc: Pc)
    ensures pc.Checking? ==> Rank(id, OnInvalid(pc.attempt)) <= Rank(id, pc)
    ensures pc.Building? || pc.Renaming? || pc.MovingAside? || pc.Removing? ==>
      Rank(id, Cleaning(false)) <= Rank(id, pc)
  {
  }

  // ----- from an incomplete root ----------------------------------------------------------------------------------

  /** A process alone, for a while. */
  function Solo(p: nat, n: nat): (r: seq<Action>)
    ensures |r| == n && forall i: nat :: i < n ==> r[i] == Runs(p)
  {
    if n == 0 then [] else [Runs(p)] + Solo(p, n - 1)
  }

  lemma {:induction false} AfterAppend(id: Identity, s: State, xs: seq<Action>, ys: seq<Action>)
    requires ValidIdentity(id)
    ensures After(id, s, xs + ys) == After(id, After(id, s, xs), ys)
    decreases |xs|
  {
    hide Act;
    if |xs| == 0 {
      assert xs + ys == ys;
    } else {
      assert (xs + ys)[1..] == xs[1..] + ys;
      AfterAppend(id, Act(id, s, xs[0]), xs[1..], ys);
    }
  }

  lemma SoloStep(id: Identity, s: State, p: nat, n: nat)
    requires ValidIdentity(id) && n > 0
    ensures After(id, s, Solo(p, n)) == After(id, Act(id, s, Runs(p)), Solo(p, n - 1))
  {
    hide Act;
    assert Solo(p, n)[1..] == Solo(p, n - 1);
  }

  lemma SetPc(pcs: seq<Pc>, p: nat, a: Pc, b: Pc)
    requires p < |pcs|
    ensures pcs[p := a][p := b] == pcs[p := b]
  {
  }

  /** Alone, the check of an absent or incomplete root comes to its negative answer. */
  lemma {:induction false} CheckFails(id: Identity, s: State, p: nat, attempt: Option<nat>) returns (n: nat)
    requires ValidIdentity(id) && p < |s.pcs| && (s.root == None || !Complete(id, s.root.value))
    requires s.pcs[p].Checking? && s.pcs[p].attempt == attempt
    requires s.pcs[p].look.LookFile? ==>
      && s.root.Some? && MarkerFits(id, s.pcs[p].look.marker) && s.root.value.marker == Some(s.pcs[p].look.marker)
      && s.pcs[p].look.i <= |id.files|
      && forall j: nat :: j < s.pcs[p].look.i ==> FileFits(id, s.pcs[p].look.marker, s.root.value.files, j)
    ensures After(id, s, Solo(p, n)) == s.(pcs := s.pcs[p := OnInvalid(attempt)])
    decreases LookRank(id, s.pcs[p].look)
  {
    hide After;
    var s' := Act(id, s, Runs(p));
    var next := CheckStep(id, s.root, s.pcs[p].look, attempt);
    assert s' == s.(pcs := s.pcs[p := next]);
    if next == OnInvalid(attempt) {
      n := 1;
      SoloStep(id, s, p, 1);
      assert After(id, s', []) == s' by { Nothing(id, s'); }
    } else {
      var m := CheckFails(id, s', p, attempt);
      n := m + 1;
      SoloStep(id, s, p, n);
      SetPc(s.pcs, p, next, OnInvalid(attempt));
    }
  }

  lemma Nothing(id: Identity, s: State)
    requires ValidIdentity(id)
    ensures After(id, s, []) == s
  {
  }

  lemma {:induction false} BuildsAlone(id: Identity, s: State, p: nat) returns (n: nat)
    requires ValidIdentity(id) && p < |s.pcs| && s.pcs[p].Building?
    ensures After(id, s, Solo(p, n)) == s.(pcs := s.pcs[p := Renaming(0)])
    ensures s.pcs[p].copied <= |id.files| ==> n == |id.files| - s.pcs[p].copied + 1
    decreases if s.pcs[p].copied < |id.files| then |id.files| - s.pcs[p].copied else 0
  {
    hide After;
    var s' := Act(id, s, Runs(p));
    if s.pcs[p].copied < |id.files| {
      var m := BuildsAlone(id, s', p);
      n := m + 1;
      SoloStep(id, s, p, n);
      SetPc(s.pcs, p, s'.pcs[p], Renaming(0));
    } else {
      n := 1;
      SoloStep(id, s, p, 1);
      assert After(id, s', []) == s' by { Nothing(id, s'); }
    }
  }

  ghost predicate OnlyRuns(run: seq<Action>) {
    forall i: nat :: i < |run| ==> run[i].Runs?
  }

  lemma {:induction false} RunsAreCareful(id: Identity, s: State, run: seq<Action>)
    requires ValidIdentity(id) && OnlyRuns(run)
    ensures Careful(id, s, run)
    decreases |run|
  {
    hide Act;
    if |run| > 0 {
      RunsAreCareful(id, Act(id, s, run[0]), run[1..]);
    }
  }

  /** Alone, a starting process finds an incomplete root, builds, collides with it, and sets out
      to move it aside. */
  lemma SetsOutToMove(id: Identity, s: State, p: nat) returns (run: seq<Action>)
    requires ValidIdentity(id) && p < |s.pcs| && s.pcs[p] == Checking(LookRoot, None)
    requires !Free(s.root) && !Complete(id, s.root.value)
    ensures After(id, s, run) == s.(pcs := s.pcs[p := MovingAside(0)]) && OnlyRuns(run)
  {
    hide After, Complete;
    var n1 := CheckFails(id, s, p, None);
    var s1 := s.(pcs := s.pcs[p := Building(0)]);
    var n2 := BuildsAlone(id, s1, p);
    SetPc(s.pcs, p, Building(0), Renaming(0));
    var s2 := s.(pcs := s.pcs[p := Renaming(0)]);
    var s3 := s.(pcs := s.pcs[p := Checking(LookRoot, Some(0))]);
    SetPc(s.pcs, p, Renaming(0), Checking(LookRoot, Some(0)));
    assert Act(id, s2, Runs(p)) == s3;
    OneAction(id, s2, Runs(p));
    var n4 := CheckFails(id, s3, p, Some(0));
    SetPc(s.pcs, p, Checking(LookRoot, Some(0)), MovingAside(0));
    AfterAppend(id, s, Solo(p, n1), Solo(p, n2));
    AfterAppend(id, s, Solo(p, n1) + Solo(p, n2), [Runs(p)]);
    AfterAppend(id, s, Solo(p, n1) + Solo(p, n2) + [Runs(p)], Solo(p, n4));
    run := Solo(p, n1) + Solo(p, n2) + [Runs(p)] + Solo(p, n4);
  }

  lemma OneAction(id: Identity, s: State, a: Action)
    requires ValidIdentity(id)
    ensures After(id, s, [a]) == Act(id, s, a)
  {
    hide Act;
    assert After(id, s, [a]) == After(id, Act(id, s, a), [a][1..]);
    assert [a][1..] == [];
  }

  /** From moving an incomplete root aside to having returned with a complete one. */
  lemma MovesAndReturns(id: Identity, s: State, p: nat) returns (run: seq<Action>)
    requires ValidIdentity(id) && p < |s.pcs| && s.pcs[p] == MovingAside(0) && s.root.Some?
    ensures After(id, s, run) == State(Some(BuiltTree(id)), s.pcs[p := Returned]) && OnlyRuns(run)
  {
    var a := Runs(p);
    var s1, s2 := State(None, s.pcs[p := Removing(0)]), State(None, s.pcs[p := Renaming(1)]);
    var root := Some(BuiltTree(id));
    var s3, s4 := State(root, s.pcs[p := Cleaning(true)]), State(root, s.pcs[p := Returned]);
    assert Act(id, s, a) == s1 && Act(id, s1, a) == s2 && Act(id, s2, a) == s3 && Act(id, s3, a) == s4;
    hide After, Act, BuiltTree;
    OneAction(id, s, a);
    OneAction(id, s1, a);
    OneAction(id, s2, a);
    OneAction(id, s3, a);
    AfterAppend(id, s, [a], [a]);
    AfterAppend(id, s, [a] + [a], [a]);
    AfterAppend(id, s, [a] + [a] + [a], [a]);
    run := [a] + [a] + [a] + [a];
  }

  /** From any incomplete root that is not empty, two processes suffice: one checks it and pauses,
      the other replaces it and returns, and the first then moves the good root aside. */
  lemma IncompleteRootIsUnsafe(id: Identity, root: Option<Tree>, pcs: seq<Pc>) returns (run: seq<Action>)
    requires ValidIdentity(id) && !Clear(id, root) && AllStarting(pcs) && |pcs| >= 2
    ensures var end := After(id, State(root, pcs), run); end.pcs[1] == Returned && end.root == None
    ensures Careful(id, State(root, pcs), run)
  {
    hide After, BuiltTree, Complete;
    var s := State(root, pcs);
    var r1 := SetsOutToMove(id, s, 0);
    var s1 := s.(pcs := pcs[0 := MovingAside(0)]);
    var r2 := SetsOutToMove(id, s1, 1);
    var s2 := s.(pcs := s1.pcs[1 := MovingAside(0)]);
    var r3 := MovesAndReturns(id, s2, 1);
    var s3 := State(Some(BuiltTree(id)), s2.pcs[1 := Returned]);
    OneAction(id, s3, Runs(0));
    AfterAppend(id, s, r1, r2);
    AfterAppend(id, s, r1 + r2, r3);
    AfterAppend(id, s, r1 + r2 + r3, [Runs(0)]);
    run := r1 + r2 + r3 + [Runs(0)];
    RunsAreCareful(id, s, run);
  }

  // ----- after a failing read -----------------------------------------------------------------------------------

  /** Alone, the check of a complete root comes to its positive answer. */
  lemma {:induction false} CheckPasses(id: Identity, s: State, p: nat, attempt: Option<nat>) returns (n: nat)
    requires ValidIdentity(id) && p < |s.pcs| && s.root.Some? && Complete(id, s.root.value)
    requires s.pcs[p].Checking? && s.pcs[p].attempt == attempt
    requires s.pcs[p].look.LookFile? ==>
      s.root.value.marker == Some(s.pcs[p].look.marker) && s.pcs[p].look.i <= |id.files|
    ensures After(id, s, Solo(p, n)) == s.(pcs := s.pcs[p := OnValid(attempt)])
    decreases LookRank(id, s.pcs[p].look)
  {
    hide After;
    var s' := Act(id, s, Runs(p));
    var next := CheckStep(id, s.root, s.pcs[p].look, attempt);
    assert s' == s.(pcs := s.pcs[p := next]);
    if next == OnValid(attempt) {
      n := 1;
      SoloStep(id, s, p, 1);
      assert After(id, s', []) == s' by { Nothing(id, s'); }
    } else {
      var m := CheckPasses(id, s', p, attempt);
      n := m + 1;
      SoloStep(id, s, p, n);
      SetPc(s.pcs, p, next, OnValid(attempt));
    }
  }

  /** Alone, a starting process returns with a complete root. */
  lemma ReturnsAlone(id: Identity, s: State, p: nat) returns (run: seq<Action>, root: Option<Tree>)
    requires ValidIdentity(id) && p < |s.pcs| && s.pcs[p] == Checking(LookRoot, None) && Clear(id, s.root)
    ensures After(id, s, run) == State(root, s.pcs[p := Returned]) && !Free(root)
  {
    hide After, BuiltTree, FileFits;
    if Free(s.root) {
      run := Publishes(id, s, p);
      root := Some(BuiltTree(id));
      BuiltIsComplete(id);
    } else {
      var n := CheckPasses(id, s, p, None);
      run, root := Solo(p, n), s.root;
    }
  }

  lemma Publishes(id: Identity, s: State, p: nat) returns (run: seq<Action>)
    requires ValidIdentity(id) && p < |s.pcs| && s.pcs[p] == Checking(LookRoot, None) && Free(s.root)
    ensures After(id, s, run) == State(Some(BuiltTree(id)), s.pcs[p := Returned])
  {
    hide After, BuiltTree, FileFits;
    var a, root := Runs(p), Some(BuiltTree(id));
    var n1 := CheckFails(id, s, p, None);
    var n2 := BuildsAlone(id, s.(pcs := s.pcs[p := Building(0)]), p);
    var s2 := s.(pcs := s.pcs[p := Renaming(0)]);
    SetPc(s.pcs, p, Building(0), Renaming(0));
    SetPc(s.pcs, p, Renaming(0), Cleaning(true));
    SetPc(s.pcs, p, Cleaning(true), Returned);
    var s3 := State(root, s.pcs[p := Cleaning(true)]);
    assert Act(id, s2, a) == s3 && Act(id, s3, a) == State(root, s.pcs[p := Returned]);
    OneAction(id, s2, a);
    OneAction(id, s3, a);
    AfterAppend(id, s, Solo(p, n1), Solo(p, n2));
    AfterAppend(id, s, Solo(p, n1) + Solo(p, n2), [a]);
    AfterAppend(id, s, Solo(p, n1) + Solo(p, n2) + [a], [a]);
    run := Solo(p, n1) + Solo(p, n2) + [a] + [a];
  }

  /** A process that has built while another published collides; one failing read in its check and
      it moves the good root aside. */
  lemma MovesGoodRoot(id: Identity, s: State, p: nat)
    requires ValidIdentity(id) && p < |s.pcs| && s.pcs[p] == Renaming(0) && !Free(s.root)
    ensures After(id, s, [Runs(p), Misreads(p), Runs(p)]) == State(None, s.pcs[p := Removing(0)])
  {
    var s1, s2 := s.(pcs := s.pcs[p := Checking(LookRoot, Some(0))]), s.(pcs := s.pcs[p := MovingAside(0)]);
    assert Act(id, s, Runs(p)) == s1 && Act(id, s1, Misreads(p)) == s2;
    assert Act(id, s2, Runs(p)) == State(None, s.pcs[p := Removing(0)]);
    hide After, Act;
    OneAction(id, s, Runs(p));
    OneAction(id, s1, Misreads(p));
    OneAction(id, s2, Runs(p));
    AfterAppend(id, s, [Runs(p)], [Misreads(p)]);
    AfterAppend(id, s, [Runs(p)] + [Misreads(p)], [Runs(p)]);
    assert [Runs(p)] + [Misreads(p)] + [Runs(p)] == [Runs(p), Misreads(p), Runs(p)];
  }

  /** From any root that is safe otherwise, a failing read after a collision leaves a process that
      has returned without a root. */
  lemma MisreadIsUnsafe(id: Identity, root: Option<Tree>, pcs: seq<Pc>) returns (run: seq<Action>)
    requires ValidIdentity(id) && Clear(id, root) && AllStarting(pcs) && |pcs| >= 2
    ensures var end := After(id, State(root, pcs), run); end.pcs[0] == Returned && end.root == None
  {
    var s, m := State(root, pcs), Misreads(1);
    var s1 := s.(pcs := pcs[1 := Building(0)]);
    assert Act(id, s, m) == s1;
    hide After, Act, Clear;
    OneAction(id, s, m);
    var n := BuildsAlone(id, s1, 1);
    var s2 := s.(pcs := s1.pcs[1 := Renaming(0)]);
    var r, root' := ReturnsAlone(id, s2, 0);
    var s3 := State(root', s2.pcs[0 := Returned]);
    MovesGoodRoot(id, s3, 1);
    AfterAppend(id, s, [m], Solo(1, n));
    AfterAppend(id, s, [m] + Solo(1, n), r);
    AfterAppend(id, s, [m] + Solo(1, n) + r, [Runs(1), m, Runs(1)]);
    run := [m] + Solo(1, n) + r + [Runs(1), m, Runs(1)];
  }

  /** Every process that returns has a complete root, in every run, or in every run in which no
      read fails after a collision. */
  ghost predicate ReturnsAreGood(id: Identity, root: Option<Tree>, pcs: seq<Pc>, readsMayFail: bool)
    requires forall i: nat :: i < |id.files| ==> id.files[i] in id.built
  {
    forall run: seq<Action>, p: nat ::
      p < |pcs| && After(id, State(root, pcs), run).pcs[p] == Returned
      && (readsMayFail || Careful(id, State(root, pcs), run))
      ==> After(id, State(root, pcs), run).root.Some? && Complete(id, After(id, State(root, pcs), run).root.value)
  }

  /** Two or more processes can rely on the root they return with exactly when they start from an
      absent, empty or complete one and no read fails after a collision. */
  lemma SafeExactly(id: Identity, root: Option<Tree>, pcs: seq<Pc>, readsMayFail: bool)
    requires ValidIdentity(id) && AllStarting(pcs) && |pcs| >= 2
    ensures ReturnsAreGood(id, root, pcs, readsMayFail) <==> Clear(id, root) && !readsMayFail
  {
    hide After, Complete, Clear, AllStarting, Careful;
    var s := State(root, pcs);
    if !Clear(id, root) {
      var run := IncompleteRootIsUnsafe(id, root, pcs);
      assert After(id, s, run).pcs[1] == Returned;
    } else if readsMayFail {
      var run := MisreadIsUnsafe(id, root, pcs);
      assert After(id, s, run).pcs[0] == Returned;
    } else {
      forall run: seq<Action>, p: nat | p < |pcs| && After(id, s, run).pcs[p] == Returned && Careful(id, s, run)
        ensures After(id, s, run).root.Some? && Complete(id, After(id, s, run).root.value)
      {
        assert Careful(id, After(id, s, run), []) by { NothingIsCareful(id, After(id, s, run)); }
        PublishingIsSafe(id, root, pcs, run, []);
        Nothing(id, After(id, s, run));
      }
    }
  }

  lemma NothingIsCareful(id: Identity, s: State)
    requires ValidIdentity(id)
    ensures Careful(id, s, [])
  {
  }
}
