/** Deciding whether pending actions may run in parallel, and why an approved batch may run in any order. */
module ActionScheduler {
  import opened PyText

  /** The action types the scheduler knows, and all others. */
  datatype Kind =
    | Read | LspQuery | Think | Recall | BrowseInteractive | BrowserTool
    | TerminalRun | TerminalInput | TerminalRead | TerminalWait | TerminalList | TerminalClose
    | Edit | Mcp | Other(tag: string)

  /** The attributes of an action that the scheduler looks at; a missing `name` is "". */
  datatype Action = Action(kind: Kind, name: string, path: Option<string>, sessionId: Option<string>)

  datatype Category = ReadOnly | Terminal | FileEdit

  datatype Reason = ParallelDisabled | InsufficientActions | MixedBatchSequential
                  | SameResourceConflict | ParallelSafeBatch | ParallelSafeBatchCapped

  datatype Decision = Decision(parallel: bool, actions: seq<Action>, reason: Reason, overflow: seq<Action>)

  const READ_ONLY_MCP_TOOLS: set<string> := {"grep", "glob", "get_entity"}

  /** A path that is not empty names the resource; else the session does, even an empty one. */
  function ResourceKey(a: Action): Option<string> {
    if a.path.Some? && a.path.value != "" then a.path else a.sessionId
  }

  function Classify(a: Action): Option<Category> {
    match a.kind
    case Read | LspQuery | Think | Recall | BrowseInteractive | BrowserTool => Some(ReadOnly)
    case Mcp => if a.name in READ_ONLY_MCP_TOOLS then Some(ReadOnly) else None
    case TerminalRun | TerminalInput | TerminalRead | TerminalWait | TerminalList | TerminalClose => Some(Terminal)
    case Edit => Some(FileEdit)
    case Other(_) => None
  }

  /** No two actions name the same resource. */
  predicate DistinctResources(actions: seq<Action>) {
    forall i, j :: 0 <= i < j < |actions| && ResourceKey(actions[i]).Some? ==>
      ResourceKey(actions[i]) != ResourceKey(actions[j])
  }

  method NoResourceConflicts(actions: seq<Action>) returns (ok: bool)
    ensures ok <==> DistinctResources(actions)
  {
    var seen: set<string> := {};
    for i := 0 to |actions|
      invariant DistinctResources(actions[..i])
      invariant forall k :: k in seen <==> exists j :: 0 <= j < i && ResourceKey(actions[j]) == Some(k)
    {
      var rk := ResourceKey(actions[i]);
      if rk.Some? && rk.value in seen {
        return false;
      }
      if rk.Some? {
        seen := seen + {rk.value};
      }
    }
    assert actions[..|actions|] == actions;
    return true;
  }

  function No(reason: Reason): Decision { Decision(false, [], reason, []) }

  datatype Scheduler = Scheduler(enabled: bool, maxBatch: nat) {

    function MakeParallelDecision(actions: seq<Action>): (d: Decision) {
      var n := if maxBatch < |actions| then maxBatch else |actions|;
      Decision(true, actions[..n], if |actions| <= n then ParallelSafeBatch else ParallelSafeBatchCapped, actions[n..])
    }

    function Categories(actions: seq<Action>): set<Option<Category>> {
      set a | a in actions :: Classify(a)
    }

    /** The decision, with the resource test stated outright. */
    function Decide(actions: seq<Action>): Decision {
      if !enabled then No(ParallelDisabled)
      else if |actions| < 2 then No(InsufficientActions)
      else if None in Categories(actions) then No(MixedBatchSequential)
      else if Categories(actions) == {Some(ReadOnly)} then MakeParallelDecision(actions)
      else if |Categories(actions)| == 1 then
        (if DistinctResources(actions) then MakeParallelDecision(actions) else No(SameResourceConflict))
      else No(MixedBatchSequential)
    }

    method DecideParallelBatch(actions: seq<Action>) returns (d: Decision)
      ensures d == Decide(actions)
    {
      if !enabled { return No(ParallelDisabled); }
      if |actions| < 2 { return No(InsufficientActions); }
      var categories := Categories(actions);
      if None in categories { return No(MixedBatchSequential); }
      if categories == {Some(ReadOnly)} { return MakeParallelDecision(actions); }
      if |categories| == 1 {
        var ok := NoResourceConflicts(actions);
        if ok { return MakeParallelDecision(actions); }
        return No(SameResourceConflict);
      }
      return No(MixedBatchSequential);
    }
  }

  /** The constructor's clamp: a batch holds at least one action. */
  function NewScheduler(enabled: bool, maxParallelBatchSize: int): (s: Scheduler)
    ensures s.enabled == enabled && s.maxBatch >= 1 && s.maxBatch >= maxParallelBatchSize
    ensures s.maxBatch == 1 || s.maxBatch == maxParallelBatchSize
  {
    Scheduler(enabled, if maxParallelBatchSize < 1 then 1 else maxParallelBatchSize)
  }

  // ----- what approval means -----------------------------------------------------------

  predicate AllOf(c: Category, actions: seq<Action>) {
    forall i :: 0 <= i < |actions| ==> Classify(actions[i]) == Some(c)
  }

  /** Everything only reads, or everything has one writing category and its own resource. */
  predicate Compatible(actions: seq<Action>) {
    || AllOf(ReadOnly, actions)
    || (DistinctResources(actions) && (AllOf(Terminal, actions) || AllOf(FileEdit, actions)))
  }

  lemma CategoriesOfAllOf(s: Scheduler, c: Category, actions: seq<Action>)
    requires actions != []
    ensures AllOf(c, actions) <==> s.Categories(actions) == {Some(c)}
  {
    assert actions[0] in actions;
    if AllOf(c, actions) {
      forall a | a in actions ensures Classify(a) == Some(c) {}
      assert Classify(actions[0]) in s.Categories(actions);
    }
    if s.Categories(actions) == {Some(c)} {
      forall i | 0 <= i < |actions| ensures Classify(actions[i]) == Some(c) {
        assert actions[i] in actions;
        assert Classify(actions[i]) in s.Categories(actions);
      }
    }
  }

  lemma SingletonSet<T>(s: set<T>)
    requires |s| == 1
    ensures exists x :: s == {x}
  {
    var x :| x in s;
    assert |s - {x}| == 0;
    assert s == {x};
  }

  /** A batch is approved if and only if parallel runs are enabled, there are two actions or more, and
      they are compatible. */
  lemma ApprovedIffCompatible(s: Scheduler, actions: seq<Action>)
    ensures s.Decide(actions).parallel <==> s.enabled && |actions| >= 2 && Compatible(actions)
  {
    if s.enabled && |actions| >= 2 {
      var cs := s.Categories(actions);
      CategoriesOfAllOf(s, ReadOnly, actions);
      CategoriesOfAllOf(s, Terminal, actions);
      CategoriesOfAllOf(s, FileEdit, actions);
      if |cs| == 1 && None !in cs {
        SingletonSet(cs);
        var x :| cs == {x};
        assert x == Some(ReadOnly) || x == Some(Terminal) || x == Some(FileEdit);
      }
    }
  }

  lemma CompatibleSlice(actions: seq<Action>, lo: nat, hi: nat)
    requires Compatible(actions) && lo <= hi <= |actions|
    ensures Compatible(actions[lo..hi])
  {
    var part := actions[lo..hi];
    assert forall i :: 0 <= i < |part| ==> part[i] == actions[lo + i];
  }

  /** Where an approved batch is cut. */
  lemma ApprovedCut(s: Scheduler, actions: seq<Action>, d: Decision)
    requires s.maxBatch >= 1 && d == s.Decide(actions) && d.parallel
    ensures var n := |d.actions|;
      && 1 <= n <= s.maxBatch && n <= |actions|
      && d.actions == actions[0..n] && d.overflow == actions[n..|actions|]
      && (d.overflow != [] <==> d.reason == ParallelSafeBatchCapped)
  {
  }

  /** The approved part and the overflow are exactly the input, in order; the approved part fits
      the cap; and whatever overflows is approved in its turn or is shorter than two. */
  lemma ApprovalSplitsInput(s: Scheduler, actions: seq<Action>)
    requires s.maxBatch >= 1 && s.Decide(actions).parallel
    ensures s.Decide(actions).actions + s.Decide(actions).overflow == actions
    ensures 1 <= |s.Decide(actions).actions| <= s.maxBatch
    ensures s.Decide(actions).overflow != [] <==> s.Decide(actions).reason == ParallelSafeBatchCapped
    ensures |s.Decide(actions).overflow| < 2 || s.Decide(s.Decide(actions).overflow).parallel
    ensures Compatible(s.Decide(actions).actions)
  {
    var n := |s.Decide(actions).actions|;
    ApprovedCut(s, actions, s.Decide(actions));
    ApprovedIffCompatible(s, actions);
    CompatibleSlice(actions, 0, n);
    CompatibleSlice(actions, n, |actions|);
    ApprovedIffCompatible(s, actions[n..|actions|]);
  }

  /** Re-queuing the overflow until nothing is left: the batches that run. */
  function Drain(s: Scheduler, actions: seq<Action>): seq<seq<Action>>
    requires s.maxBatch >= 1
    decreases |actions|
  {
    if actions == [] then []
    else if s.Decide(actions).parallel then
      ApprovalSplitsInput(s, actions);
      [s.Decide(actions).actions] + Drain(s, s.Decide(actions).overflow)
    else [actions[..1]] + Drain(s, actions[1..])
  }

  function Concat(batches: seq<seq<Action>>): seq<Action> {
    if batches == [] then [] else batches[0] + Concat(batches[1..])
  }

  /** Draining runs every action once and in order, in batches that are compatible and fit the cap. */
  lemma {:induction false} DrainLosesNothing(s: Scheduler, actions: seq<Action>)
    requires s.maxBatch >= 1
    ensures Concat(Drain(s, actions)) == actions
    ensures forall b :: b in Drain(s, actions) ==> 1 <= |b| <= s.maxBatch && (|b| == 1 || Compatible(b))
    decreases |actions|
  {
    if actions != [] {
      if s.Decide(actions).parallel {
        ApprovalSplitsInput(s, actions);
        DrainLosesNothing(s, s.Decide(actions).overflow);
      } else {
        DrainLosesNothing(s, actions[1..]);
      }
    }
  }

  // ----- what actions do, by their kind ------------------------------------------------

  /** An action looks at the world and leaves it alone, or writes the cell of its resource, or does anything. */
  datatype Effect = Looks | Writes | Anything

  predicate IsEdit(a: Action) { a.kind == Edit }

  predicate IsTerminal(a: Action) {
    || a.kind == TerminalRun || a.kind == TerminalInput || a.kind == TerminalRead
    || a.kind == TerminalWait || a.kind == TerminalList || a.kind == TerminalClose
  }

  predicate IsLook(a: Action) {
    || a.kind == Read || a.kind == LspQuery || a.kind == Think || a.kind == Recall
    || a.kind == BrowseInteractive || a.kind == BrowserTool
    || (a.kind == Mcp && (a.name == "grep" || a.name == "glob" || a.name == "get_entity"))
  }

  function EffectOf(a: Action): Effect {
    if IsEdit(a) || IsTerminal(a) then Writes else if IsLook(a) then Looks else Anything
  }

  /** The file an action names, or else its session. */
  function Resource(a: Action): Option<string> {
    match (a.path, a.sessionId)
    case (Some(p), Some(id)) => Some(if p == "" then id else p)
    case (Some(p), None) => if p == "" then None else Some(p)
    case (None, id) => id
  }

  lemma ClassifyMeaning(a: Action)
    ensures Classify(a) == Some(ReadOnly) <==> EffectOf(a) == Looks
    ensures Classify(a) == Some(Terminal) <==> IsTerminal(a)
    ensures Classify(a) == Some(FileEdit) <==> IsEdit(a)
    ensures Classify(a) == None <==> EffectOf(a) == Anything
    ensures ResourceKey(a) == Resource(a)
  {
    assert a.kind == Mcp && IsLook(a) <==> a.kind == Mcp && a.name in READ_ONLY_MCP_TOOLS;
  }

  /** All only look, or all are terminal actions, or all are edits. */
  predicate OneSort(actions: seq<Action>) {
    || (forall i :: 0 <= i < |actions| ==> IsLook(actions[i]))
    || (forall i :: 0 <= i < |actions| ==> IsTerminal(actions[i]))
    || (forall i :: 0 <= i < |actions| ==> IsEdit(actions[i]))
  }

  predicate Shares(a: Action, b: Action) { Resource(a).Some? && Resource(a) == Resource(b) }

  /** Two of the actions name the same resource, and write. */
  ghost predicate SomeShare(actions: seq<Action>) {
    exists i, j :: 0 <= i < j < |actions| && EffectOf(actions[i]) == Writes && Shares(actions[i], actions[j])
  }

  lemma SortMeaning(actions: seq<Action>)
    ensures OneSort(actions) <==> AllOf(ReadOnly, actions) || AllOf(Terminal, actions) || AllOf(FileEdit, actions)
  {
    forall i | 0 <= i < |actions|
      ensures Classify(actions[i]) == Some(ReadOnly) <==> IsLook(actions[i])
      ensures Classify(actions[i]) == Some(Terminal) <==> IsTerminal(actions[i])
      ensures Classify(actions[i]) == Some(FileEdit) <==> IsEdit(actions[i])
    {
      ClassifyMeaning(actions[i]);
    }
  }

  lemma ShareMeaning(actions: seq<Action>)
    requires |actions| >= 2
    ensures Compatible(actions) <==> OneSort(actions) && !SomeShare(actions)
  {
    SortMeaning(actions);
    forall i | 0 <= i < |actions|
      ensures ResourceKey(actions[i]) == Resource(actions[i])
      ensures EffectOf(actions[i]) == Looks <==> Classify(actions[i]) == Some(ReadOnly)
      ensures EffectOf(actions[i]) == Writes
         <==> Classify(actions[i]) == Some(Terminal) || Classify(actions[i]) == Some(FileEdit)
    {
      ClassifyMeaning(actions[i]);
    }
    if AllOf(ReadOnly, actions) {
      forall i | 0 <= i < |actions| ensures EffectOf(actions[i]) != Writes {
        assert Classify(actions[i]) == Some(ReadOnly);
      }
    }
    if i, j :| 0 <= i < j < |actions| && EffectOf(actions[i]) == Writes && Shares(actions[i], actions[j]) {
      assert ResourceKey(actions[i]) == ResourceKey(actions[j]);
    }
  }

  /** The decision in full, told by kinds, names, paths and sessions. */
  lemma DecisionMeaning(s: Scheduler, actions: seq<Action>)
    ensures var d, n := s.Decide(actions), if s.maxBatch < |actions| then s.maxBatch else |actions|;
      && (d.parallel <==> s.enabled && |actions| >= 2 && OneSort(actions) && !SomeShare(actions))
      && (d.parallel ==> d.actions == actions[..n] && d.overflow == actions[n..])
      && (d.parallel ==> d.reason == if s.maxBatch < |actions| then ParallelSafeBatchCapped else ParallelSafeBatch)
      && (!d.parallel ==> d.actions == [] && d.overflow == [])
      && (!d.parallel ==> d.reason == if !s.enabled then ParallelDisabled
                                      else if |actions| < 2 then InsufficientActions
                                      else if !OneSort(actions) then MixedBatchSequential
                                      else SameResourceConflict)
  {
    ApprovedIffCompatible(s, actions);
    if s.enabled && |actions| >= 2 {
      ShareMeaning(actions);
      SortMeaning(actions);
      SameCategory(s, actions);
    }
  }

  lemma SameCategory(s: Scheduler, actions: seq<Action>)
    requires s.enabled && |actions| >= 2
    ensures s.Decide(actions).reason == SameResourceConflict || s.Decide(actions).parallel
       <==> AllOf(ReadOnly, actions) || AllOf(Terminal, actions) || AllOf(FileEdit, actions)
  {
    var cs := s.Categories(actions);
    CategoriesOfAllOf(s, ReadOnly, actions);
    CategoriesOfAllOf(s, Terminal, actions);
    CategoriesOfAllOf(s, FileEdit, actions);
    if |cs| == 1 && None !in cs {
      SingletonSet(cs);
      var x :| cs == {x};
      assert x == Some(ReadOnly) || x == Some(Terminal) || x == Some(FileEdit);
    }
    if AllOf(Terminal, actions) || AllOf(FileEdit, actions) { assert |cs| == 1 && None !in cs; }
  }

  /** Of the actions approved no two are edits of one file, and no two are terminal actions of one session. */
  lemma ApprovedTouchDifferently(s: Scheduler, actions: seq<Action>, i: nat, j: nat)
    requires s.Decide(actions).parallel && i < j < |actions|
    ensures var a, b := actions[i], actions[j];
      && !(a.kind == Edit && b.kind == Edit && a.path.Some? && a.path.value != "" && a.path == b.path)
      && !(IsTerminal(a) && IsTerminal(b) && a.path == None && b.path == None && a.sessionId.Some?
           && a.sessionId == b.sessionId)
      && (a.kind == Edit <==> b.kind == Edit) && (IsTerminal(a) <==> IsTerminal(b))
  {
    DecisionMeaning(s, actions);
    assert !Shares(actions[i], actions[j]) || EffectOf(actions[i]) != Writes;
  }

  // ----- order independence ------------------------------------------------------------

  /** The shared cells, one per resource. */
  type World<Cell> = map<string, Cell>

  /** What actions do. One that writes and names a resource replaces its cell (or deletes it) and sees only
      that cell; one that looks sees the whole world and changes nothing; one that writes and names no
      resource sees and changes no shared cell; any other does what it likes. */
  datatype Semantics<!Cell, !Out> = Semantics(
    write: (Action, Option<Cell>) -> Option<Cell>,
    result: (Action, Option<Cell>) -> Out,
    look: (Action, World<Cell>) -> Out,
    alter: (Action, World<Cell>) -> World<Cell>)

  datatype Run<Cell, Out> = Run(world: World<Cell>, outs: map<nat, Out>)

  function Cell<C>(w: World<C>, k: string): Option<C> { if k in w then Some(w[k]) else None }

  function Put<C>(w: World<C>, k: string, c: Option<C>): World<C> {
    match c case Some(v) => w[k := v] case None => w - {k}
  }

  /** The cell an action writes, if it writes just one. */
  function Target(a: Action): Option<string> { if EffectOf(a) == Writes then Resource(a) else None }

  function Output<C, O>(sem: Semantics<C, O>, a: Action, w: World<C>): O {
    if EffectOf(a) != Writes then sem.look(a, w)
    else match Resource(a) case Some(k) => sem.result(a, Cell(w, k)) case None => sem.result(a, None)
  }

  function Exec<C, O>(sem: Semantics<C, O>, a: Action, w: World<C>): World<C> {
    if EffectOf(a) == Anything then sem.alter(a, w)
    else match Target(a) case Some(k) => Put(w, k, sem.write(a, Cell(w, k))) case None => w
  }

  predicate InRange(order: seq<nat>, n: nat) { forall j :: 0 <= j < |order| ==> order[j] < n }

  /** Running the actions of `batch` in the order of the indices in `order`, recording what each returns. */
  function RunIn<C, O>(sem: Semantics<C, O>, batch: seq<Action>, order: seq<nat>, start: World<C>): Run<C, O>
    requires InRange(order, |batch|)
  {
    if order == [] then Run(start, map[])
    else
      var n := |order| - 1;
      var before := RunIn(sem, batch, order[..n], start);
      var a := batch[order[n]];
      Run(Exec(sem, a, before.world), before.outs[order[n] := Output(sem, a, before.world)])
  }

  /** Which indices have run, as a set. */
  function Indices(order: seq<nat>): set<nat> { set i | i in order }

  predicate NoRepeat(order: seq<nat>) {
    forall i, j :: 0 <= i < j < |order| ==> order[i] != order[j]
  }

  /** The cell `k` after the actions in `ran` have run, in whatever order: the one that targets it,
      if any, has been applied to the initial cell. */
  ghost predicate Settled<C, O>(sem: Semantics<C, O>, batch: seq<Action>, ran: set<nat>, start: World<C>, r: Run<C, O>)
    requires forall i :: i in ran ==> i < |batch|
  {
    && (forall k: string :: (forall i :: i in ran ==> Target(batch[i]) != Some(k)) ==>
        Cell(r.world, k) == Cell(start, k))
    && (forall i :: i in ran && Target(batch[i]).Some? ==>
          Cell(r.world, Target(batch[i]).value) == sem.write(batch[i], Cell(start, Target(batch[i]).value)))
    && r.outs.Keys == ran
    && (forall i :: i in ran ==> r.outs[i] == Output(sem, batch[i], start))
  }

  predicate AllLook(batch: seq<Action>) { forall i :: 0 <= i < |batch| ==> EffectOf(batch[i]) == Looks }

  predicate Disjoint(batch: seq<Action>) {
    || AllLook(batch)
    || ((forall i :: 0 <= i < |batch| ==> EffectOf(batch[i]) == Writes)
        && forall i, j :: 0 <= i < j < |batch| ==> !Shares(batch[i], batch[j]))
  }

  lemma {:induction false} RunSettles<C, O>(sem: Semantics<C, O>, batch: seq<Action>, order: seq<nat>, start: World<C>)
    requires Disjoint(batch) && NoRepeat(order) && InRange(order, |batch|)
    ensures Settled(sem, batch, Indices(order), start, RunIn(sem, batch, order, start))
  {
    if order != [] {
      var n := |order| - 1;
      RunSettles(sem, batch, order[..n], start);
      OneMoreSettles(sem, batch, order, start);
    }
  }

  lemma TargetsDiffer(batch: seq<Action>, i: nat, j: nat)
    requires Disjoint(batch) && i < |batch| && j < |batch| && i != j && Target(batch[i]).Some?
    ensures Target(batch[i]) != Target(batch[j])
  {
    if i < j { assert !Shares(batch[i], batch[j]); } else { assert !Shares(batch[j], batch[i]); }
  }

  lemma LastIndex(order: seq<nat>)
    requires NoRepeat(order) && order != []
    ensures var n := |order| - 1; Indices(order) == Indices(order[..n]) + {order[n]} && order[n] !in Indices(order[..n])
  {
    assert order == order[..|order| - 1] + [order[|order| - 1]];
  }

  lemma OneMoreSettles<C, O>(sem: Semantics<C, O>, batch: seq<Action>, order: seq<nat>, start: World<C>)
    requires Disjoint(batch) && NoRepeat(order) && order != [] && InRange(order, |batch|)
    requires var n := |order| - 1; Settled(sem, batch, Indices(order[..n]), start, RunIn(sem, batch, order[..n], start))
    ensures Settled(sem, batch, Indices(order), start, RunIn(sem, batch, order, start))
  {
    var n := |order| - 1;
    var now := order[n];
    var ran := Indices(order[..n]);
    var before := RunIn(sem, batch, order[..n], start);
    LastIndex(order);
    if AllLook(batch) {
      ReadersLeaveTheWorld(sem, batch, order[..n], start);
    }
    SettleOne(sem, batch, ran, start, before, now);
  }

  /** An action that has not run finds its own cell as it was, and leaves the cells of the others alone. */
  lemma SettleOne<C, O>(sem: Semantics<C, O>, batch: seq<Action>, ran: set<nat>, start: World<C>, before: Run<C, O>,
                        now: nat)
    requires Disjoint(batch) && (forall i :: i in ran ==> i < |batch|) && now < |batch| && now !in ran
    requires Settled(sem, batch, ran, start, before)
    requires AllLook(batch) ==> before.world == start
    ensures Settled(sem, batch, ran + {now}, start,
                    Run(Exec(sem, batch[now], before.world), before.outs[now := Output(sem, batch[now], before.world)]))
  {
    var a := batch[now];
    var world := Exec(sem, a, before.world);
    if Target(a).Some? {
      forall i | i in ran ensures Target(batch[i]) != Target(a) { TargetsDiffer(batch, now, i); }
      assert Cell(before.world, Target(a).value) == Cell(start, Target(a).value);
      assert forall k: string :: k != Target(a).value ==> Cell(world, k) == Cell(before.world, k);
      assert Cell(world, Target(a).value) == sem.write(a, Cell(start, Target(a).value));
    } else {
      assert world == before.world;
    }
    assert Output(sem, a, before.world) == Output(sem, a, start);
  }

  lemma {:induction false} ReadersLeaveTheWorld<C, O>(sem: Semantics<C, O>, batch: seq<Action>, order: seq<nat>,
                                                      start: World<C>)
    requires AllLook(batch) && InRange(order, |batch|)
    ensures RunIn(sem, batch, order, start).world == start
  {
    if order != [] {
      ReadersLeaveTheWorld(sem, batch, order[..|order| - 1], start);
    }
  }

  lemma ApprovedIsDisjoint(s: Scheduler, actions: seq<Action>)
    requires s.Decide(actions).parallel
    ensures Disjoint(s.Decide(actions).actions)
  {
    DecisionMeaning(s, actions);
    var batch := s.Decide(actions).actions;
    forall i | 0 <= i < |batch| ensures batch[i] == actions[i] {}
  }

  /** Every order of an approved batch ends in the same world, and every action returns the same. */
  lemma ApprovedBatchIsOrderIndependent<C, O>(s: Scheduler, actions: seq<Action>, sem: Semantics<C, O>,
                                              p: seq<nat>, q: seq<nat>, start: World<C>)
    requires s.maxBatch >= 1 && s.Decide(actions).parallel
    requires NoRepeat(p) && NoRepeat(q) && Indices(p) == Indices(q)
    requires InRange(p, |s.Decide(actions).actions|)
    ensures InRange(q, |s.Decide(actions).actions|)
    ensures var batch := s.Decide(actions).actions; RunIn(sem, batch, p, start) == RunIn(sem, batch, q, start)
  {
    ApprovedIsDisjoint(s, actions);
    var batch := s.Decide(actions).actions;
    forall j | 0 <= j < |q| ensures q[j] < |batch| { assert q[j] in Indices(p); }
    RunSettles(sem, batch, p, start);
    RunSettles(sem, batch, q, start);
    SettledUnique(sem, batch, Indices(p), start, RunIn(sem, batch, p, start), RunIn(sem, batch, q, start));
  }

  lemma SettledUnique<C, O>(sem: Semantics<C, O>, batch: seq<Action>, ran: set<nat>, start: World<C>, r: Run<C, O>,
                            t: Run<C, O>)
    requires forall i :: i in ran ==> i < |batch|
    requires Settled(sem, batch, ran, start, r) && Settled(sem, batch, ran, start, t)
    ensures r == t
  {
    forall k: string ensures Cell(r.world, k) == Cell(t.world, k) {
      if i :| i in ran && Target(batch[i]) == Some(k) {
        assert Cell(r.world, k) == Cell(t.world, k);
      }
    }
    assert forall k: string :: k in r.world <==> Cell(r.world, k).Some?;
    assert forall k: string :: k in t.world <==> Cell(t.world, k).Some?;
    assert r.world.Keys == t.world.Keys;
    assert r.world == t.world;
    assert r.outs == t.outs;
  }

  // ----- when the order of two actions matters -----------------------------------------

  predicate Changes(a: Action) { EffectOf(a) == Anything || Target(a).Some? }

  /** The first can tell whether the second came before it. */
  predicate Notices(a: Action, b: Action) {
    || (Target(a).Some? && Target(a) == Target(b))
    || (EffectOf(a) != Writes && Changes(b))
  }

  predicate Conflict(a: Action, b: Action) { Notices(a, b) || Notices(b, a) }

  function Count(c: Option<int>): int { match c case Some(n) => n case None => 0 }

  /** Writing adds one to the cell and returns what it held; looking counts the cells; anything else adds a
      cell to the empty world. */
  const COUNTING: Semantics<int, int> :=
    Semantics((x: Action, c: Option<int>) => Some(Count(c) + 1), (x: Action, c: Option<int>) => Count(c),
              (x: Action, w: World<int>) => |w|, (x: Action, w: World<int>) => w["" := 1])

  lemma RunOfTwo<C, O>(sem: Semantics<C, O>, batch: seq<Action>, i: nat, j: nat, start: World<C>)
    requires i < |batch| && j < |batch|
    ensures var mid := Exec(sem, batch[i], start);
      RunIn(sem, batch, [i, j], start)
        == Run(Exec(sem, batch[j], mid), map[i := Output(sem, batch[i], start)][j := Output(sem, batch[j], mid)])
  {
    var order: seq<nat> := [i, j];
    assert order[..1] == [i] && order[..1][..0] == [];
    assert RunIn(sem, batch, order[..1], start)
        == Run(Exec(sem, batch[i], start), map[i := Output(sem, batch[i], start)]);
  }

  /** From the empty world, what the counting semantics returns for an action tells whether it came first. */
  lemma SecondCountsMore(a: Action, b: Action)
    ensures Notices(a, b) ==> Output(COUNTING, a, Exec(COUNTING, b, map[])) == 1
    ensures Output(COUNTING, a, map[]) == 0
  {
    if Changes(b) {
      var k := if EffectOf(b) == Anything then "" else Target(b).value;
      assert Exec(COUNTING, b, map[]) == map[k := 1];
      assert |map[k := 1]| == 1;
    }
  }

  lemma NoticedInOuts(batch: seq<Action>, i: nat, j: nat)
    requires i < |batch| && j < |batch| && i != j
    ensures Notices(batch[i], batch[j]) ==>
      RunIn(COUNTING, batch, [i, j], map[]).outs != RunIn(COUNTING, batch, [j, i], map[]).outs
  {
    RunOfTwo(COUNTING, batch, i, j, map[]);
    RunOfTwo(COUNTING, batch, j, i, map[]);
    SecondCountsMore(batch[i], batch[j]);
    if Notices(batch[i], batch[j]) {
      assert RunIn(COUNTING, batch, [i, j], map[]).outs[i] == 0;
      assert RunIn(COUNTING, batch, [j, i], map[]).outs[i] == 1;
    }
  }

  lemma ConflictDependsOnOrder(batch: seq<Action>, i: nat, j: nat)
    requires i < |batch| && j < |batch| && i != j && Conflict(batch[i], batch[j])
    ensures RunIn(COUNTING, batch, [i, j], map[]) != RunIn(COUNTING, batch, [j, i], map[])
  {
    NoticedInOuts(batch, i, j);
    NoticedInOuts(batch, j, i);
  }

  lemma OthersCellKept<C, O>(sem: Semantics<C, O>, a: Action, w: World<C>, k: string)
    requires EffectOf(a) != Anything && Target(a) != Some(k)
    ensures Cell(Exec(sem, a, w), k) == Cell(w, k)
  {
  }

  lemma UnaffectedByOther<C, O>(sem: Semantics<C, O>, a: Action, b: Action, w: World<C>)
    requires !Conflict(a, b)
    ensures Output(sem, a, Exec(sem, b, w)) == Output(sem, a, w)
    ensures Target(a).Some? ==> Cell(Exec(sem, b, w), Target(a).value) == Cell(w, Target(a).value)
  {
    if Target(a).Some? { OthersCellKept(sem, b, w, Target(a).value); }
  }

  lemma OtherwiseTheyCommute<C, O>(sem: Semantics<C, O>, a: Action, b: Action, w: World<C>)
    requires !Conflict(a, b)
    ensures Exec(sem, b, Exec(sem, a, w)) == Exec(sem, a, Exec(sem, b, w))
  {
    UnaffectedByOther(sem, a, b, w);
    UnaffectedByOther(sem, b, a, w);
  }

  lemma RecordedEitherWay<O>(i: nat, x: O, j: nat, y: O)
    requires i != j
    ensures map[i := x][j := y] == map[j := y][i := x]
  {
  }

  lemma NoConflictNoOrder<C, O>(sem: Semantics<C, O>, batch: seq<Action>, i: nat, j: nat, start: World<C>)
    requires i < |batch| && j < |batch| && i != j && !Conflict(batch[i], batch[j])
    ensures RunIn(sem, batch, [i, j], start) == RunIn(sem, batch, [j, i], start)
  {
    var a, b := batch[i], batch[j];
    RunOfTwo(sem, batch, i, j, start);
    RunOfTwo(sem, batch, j, i, start);
    OtherwiseTheyCommute(sem, a, b, start);
    UnaffectedByOther(sem, a, b, start);
    UnaffectedByOther(sem, b, a, start);
    RecordedEitherWay(i, Output(sem, a, start), j, Output(sem, b, start));
  }

  ghost predicate OrderMatters(batch: seq<Action>, i: nat, j: nat)
    requires i < |batch| && j < |batch|
  {
    exists sem: Semantics<int, int>, start: World<int> ::
      RunIn(sem, batch, [i, j], start) != RunIn(sem, batch, [j, i], start)
  }

  /** The order of two actions matters, for some effects and some world, if and only if they conflict. */
  lemma OrderMattersIffConflict(batch: seq<Action>, i: nat, j: nat)
    requires i < |batch| && j < |batch| && i != j
    ensures OrderMatters(batch, i, j) <==> Conflict(batch[i], batch[j])
  {
    if Conflict(batch[i], batch[j]) {
      ConflictDependsOnOrder(batch, i, j);
    } else {
      forall sem: Semantics<int, int>, start: World<int>
        ensures RunIn(sem, batch, [i, j], start) == RunIn(sem, batch, [j, i], start)
      {
        NoConflictNoOrder(sem, batch, i, j, start);
      }
    }
  }

  ghost predicate SomeOrderMatters(batch: seq<Action>) {
    exists i, j :: 0 <= i < j < |batch| && OrderMatters(batch, i, j)
  }

  lemma SortEffects(actions: seq<Action>, i: nat, j: nat)
    requires OneSort(actions) && i < j < |actions|
    ensures EffectOf(actions[i]) == EffectOf(actions[j]) != Anything
    ensures Conflict(actions[i], actions[j]) <==> EffectOf(actions[i]) == Writes && Shares(actions[i], actions[j])
  {
  }

  /** The scheduler is neither too strict nor too lax: of two or more actions of one sort exactly those
      batches are approved in which the order of no two actions can matter. */
  lemma ApprovedIffNoOrderMatters(s: Scheduler, actions: seq<Action>)
    requires s.enabled && |actions| >= 2 && OneSort(actions)
    ensures s.Decide(actions).parallel <==> !SomeOrderMatters(actions)
  {
    DecisionMeaning(s, actions);
    forall i, j | 0 <= i < j < |actions|
      ensures OrderMatters(actions, i, j) <==> EffectOf(actions[i]) == Writes && Shares(actions[i], actions[j])
    {
      OrderMattersIffConflict(actions, i, j);
      SortEffects(actions, i, j);
    }
  }
}
