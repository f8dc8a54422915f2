/** Releasing blocked assistant messages once the responses to all their tool calls have arrived. */
module ToolCallFlush {
  import opened PyText
  import opened PyCollections
  import opened ToolCalls
  import Filter = ToolCallFilter

  /** A blocked message under its response id. */
  datatype Pending = Pending(id: string, message: Message)

  type Responses = map<string, Message>

  function IdsOf(calls: seq<Call>): (ids: seq<string>)
    ensures |ids| == |calls| && forall i :: 0 <= i < |ids| ==> ids[i] == calls[i].id
  {
    seq(|calls|, i requires 0 <= i < |calls| => calls[i].id)
  }

  /** What the program asserts of a blocked message, and what popping its responses one by one needs. */
  predicate Proper(p: Pending) { p.message.toolCalls.Some? && NoDup(IdsOf(CallsOf(p.message))) }

  predicate AllProper(items: seq<Pending>) { forall i :: 0 <= i < |items| ==> Proper(items[i]) }

  predicate Ready(m: Message, responses: Responses) { forall c :: c in CallsOf(m) ==> c.id in responses }

  function IdSet(m: Message): set<string> { set c | c in CallsOf(m) :: c.id }

  /** An assistant message, followed by the responses to its calls in call order. */
  function Block(m: Message, responses: Responses): seq<Message>
    requires Ready(m, responses)
  {
    [m] + Answered(CallsOf(m), responses)
  }

  function Answered(calls: seq<Call>, responses: Responses): (r: seq<Message>)
    requires forall c :: c in calls ==> c.id in responses
    ensures |r| == |calls| && forall i :: 0 <= i < |r| ==> r[i] == responses[calls[i].id]
  {
    seq(|calls|, i requires 0 <= i < |calls| => (assert calls[i] in calls; responses[calls[i].id]))
  }

  datatype Flushed = Flushed(out: seq<Message>, responses: Responses, released: seq<Pending>, left: seq<Pending>)

  function FlushStep(f: Flushed, p: Pending): Flushed {
    if Ready(p.message, f.responses) then
      Flushed(f.out + Block(p.message, f.responses), f.responses - IdSet(p.message), f.released + [p], f.left)
    else f.(left := f.left + [p])
  }

  /** Going through the blocked messages in order, releasing those whose responses are all there. */
  function Flush(items: seq<Pending>, responses: Responses): Flushed {
    if items == [] then Flushed([], responses, [], [])
    else FlushStep(Flush(items[..|items| - 1], responses), items[|items| - 1])
  }

  // ----- the class ---------------------------------------------------------------------

  /** The two dictionaries of the tool-call tracker; the blocked messages in insertion order. */
  class ToolCallTracking {
    var pendingActionMessages: seq<Pending>
    var toolCallMessages: Responses

    predicate Valid() reads this {
      NoDup(Keys(pendingActionMessages)) && AllProper(pendingActionMessages)
    }

    method PopResponses(calls: seq<Call>) returns (popped: seq<Message>)
      requires NoDup(IdsOf(calls)) && forall c :: c in calls ==> c.id in toolCallMessages
      modifies this`toolCallMessages
      ensures popped == Answered(calls, old(toolCallMessages))
      ensures toolCallMessages == old(toolCallMessages) - (set c | c in calls :: c.id)
    {
      popped := [];
      for i := 0 to |calls|
        invariant |popped| == i && forall j :: 0 <= j < i ==> popped[j] == old(toolCallMessages)[calls[j].id]
        invariant toolCallMessages == old(toolCallMessages) - (set c | c in calls[..i] :: c.id)
      {
        var id := calls[i].id;
        assert calls[i] in calls && id == IdsOf(calls)[i];
        assert forall j :: 0 <= j < i ==> IdsOf(calls)[j] != id;
        assert id in toolCallMessages;
        popped := popped + [toolCallMessages[id]];
        toolCallMessages := toolCallMessages - {id};
        assert calls[..i + 1] == calls[..i] + [calls[i]];
      }
      assert calls[..|calls|] == calls;
    }

    /** Pops the responses of a message that has them all. */
    method Release(m: Message) returns (block: seq<Message>)
      requires NoDup(IdsOf(CallsOf(m))) && Ready(m, toolCallMessages)
      modifies this`toolCallMessages
      ensures block == Block(m, old(toolCallMessages)) && toolCallMessages == old(toolCallMessages) - IdSet(m)
    {
      var popped := PopResponses(CallsOf(m));
      block := [m] + popped;
    }

    method FlushResolvedToolCalls() returns (resolved: seq<Message>)
      requires Valid()
      modifies this
      ensures Valid()
      ensures var f := Flush(old(pendingActionMessages), old(toolCallMessages));
        resolved == f.out && toolCallMessages == f.responses && pendingActionMessages == f.left
    {
      resolved := [];
      var toRemove: seq<string> := [];
      ghost var items, responses := pendingActionMessages, toolCallMessages;
      ghost var f := Flush([], responses);
      assert items[..0] == [];
      for i := 0 to |pendingActionMessages|
        invariant pendingActionMessages == items && f == Flush(items[..i], responses)
        invariant resolved == f.out && toolCallMessages == f.responses && toRemove == Keys(f.released)
      {
        FlushNext(items, responses, i);
        var p := pendingActionMessages[i];
        assert Proper(p);
        if forall c :: c in CallsOf(p.message) ==> c.id in toolCallMessages {
          var block := Release(p.message);
          resolved := resolved + block;
          KeysSnoc(f.released, p);
          toRemove := toRemove + [p.id];
        }
        f := FlushStep(f, p);
      }
      assert items[..|items|] == items;
      LeftIsRest(items, responses);
      LeftStaysProper(items, responses);
      pendingActionMessages := Rest(pendingActionMessages, toRemove);
    }
  }

  lemma FlushNext(items: seq<Pending>, responses: Responses, i: nat)
    requires i < |items|
    ensures Flush(items[..i + 1], responses) == FlushStep(Flush(items[..i], responses), items[i])
  {
    assert items[..i + 1][..i] == items[..i];
  }

  lemma KeysSnoc(items: seq<Pending>, p: Pending)
    ensures Keys(items + [p]) == Keys(items) + [p.id]
  {
  }

  function Keys(items: seq<Pending>): (ks: seq<string>)
    ensures |ks| == |items| && forall i :: 0 <= i < |ks| ==> ks[i] == items[i].id
  {
    seq(|items|, i requires 0 <= i < |items| => items[i].id)
  }

  /** The items that are left when those under the listed ids have been popped. */
  function Rest(items: seq<Pending>, ids: seq<string>): seq<Pending> {
    if items == [] then []
    else
      var before, p := Rest(items[..|items| - 1], ids), items[|items| - 1];
      if p.id in ids then before else before + [p]
  }

  lemma {:induction false} RestIgnores(items: seq<Pending>, ids: seq<string>, id: string)
    requires id !in Keys(items)
    ensures Rest(items, ids + [id]) == Rest(items, ids)
  {
    if items != [] {
      var n := |items| - 1;
      assert Keys(items)[n] == items[n].id;
      assert Keys(items)[..n] == Keys(items[..n]);
      RestIgnores(items[..n], ids, id);
    }
  }

  lemma {:induction false} ReleasedAreItems(items: seq<Pending>, responses: Responses)
    ensures forall p :: p in Flush(items, responses).released || p in Flush(items, responses).left ==> p in items
  {
    if items != [] {
      ReleasedAreItems(items[..|items| - 1], responses);
      assert items == items[..|items| - 1] + [items[|items| - 1]];
    }
  }

  lemma KeysContain(items: seq<Pending>, k: string)
    ensures k in Keys(items) <==> exists p :: p in items && p.id == k
  {
    if k in Keys(items) {
      var i :| 0 <= i < |items| && Keys(items)[i] == k;
      assert items[i] in items;
    }
    if p :| p in items && p.id == k {
      var i :| 0 <= i < |items| && items[i] == p;
      assert Keys(items)[i] == k;
    }
  }

  /** Popping the collected ids afterwards leaves exactly the messages that were not released. */
  lemma {:induction false} LeftIsRest(items: seq<Pending>, responses: Responses)
    requires NoDup(Keys(items))
    ensures Flush(items, responses).left == Rest(items, Keys(Flush(items, responses).released))
  {
    if items != [] {
      var n := |items| - 1;
      var p, before, f := items[n], Flush(items[..n], responses), Flush(items, responses);
      assert Keys(items)[..n] == Keys(items[..n]);
      assert p.id !in Keys(items[..n]) by { assert Keys(items)[n] == p.id; }
      LeftIsRest(items[..n], responses);
      ReleasedAreItems(items[..n], responses);
      KeysContain(before.released, p.id);
      KeysContain(items[..n], p.id);
      if f.released != before.released {
        RestIgnores(items[..n], Keys(before.released), p.id);
        assert Keys(f.released) == Keys(before.released) + [p.id];
      }
    }
  }

  lemma {:induction false} KeysOfLeft(items: seq<Pending>, responses: Responses)
    requires NoDup(Keys(items))
    ensures NoDup(Keys(Flush(items, responses).left))
  {
    if items != [] {
      var n := |items| - 1;
      assert Keys(items)[..n] == Keys(items[..n]);
      KeysOfLeft(items[..n], responses);
      ReleasedAreItems(items[..n], responses);
      var left := Flush(items[..n], responses).left;
      assert Keys(left + [items[n]]) == Keys(left) + [items[n].id];
      KeysContain(left, items[n].id);
      KeysContain(items[..n], items[n].id);
      assert Keys(items)[n] == items[n].id;
    }
  }

  lemma LeftStaysProper(items: seq<Pending>, responses: Responses)
    requires NoDup(Keys(items)) && AllProper(items)
    ensures NoDup(Keys(Flush(items, responses).left)) && AllProper(Flush(items, responses).left)
  {
    KeysOfLeft(items, responses);
    ReleasedAreItems(items, responses);
    var left := Flush(items, responses).left;
    forall i | 0 <= i < |left| ensures Proper(left[i]) { assert left[i] in left; }
  }

  // ----- conservation and settling -----------------------------------------------------

  function CallIds(items: seq<Pending>): seq<string> {
    if items == [] then []
    else CallIds(items[..|items| - 1]) + IdsOf(CallsOf(items[|items| - 1].message))
  }

  lemma LastIsReady(items: seq<Pending>, responses: Responses)
    requires items != [] && forall id :: id in CallIds(items) ==> id in responses
    ensures Ready(items[|items| - 1].message, responses)
    ensures forall id :: id in CallIds(items[..|items| - 1]) ==> id in responses
  {
    var calls := CallsOf(items[|items| - 1].message);
    forall c | c in calls ensures c.id in CallIds(items) {
      var i :| 0 <= i < |calls| && calls[i] == c;
      assert IdsOf(calls)[i] == c.id;
    }
  }

  /** The output of the released messages, each block taken from the responses as they were at first. */
  function Blocks(items: seq<Pending>, responses: Responses): seq<Message>
    requires forall id :: id in CallIds(items) ==> id in responses
  {
    if items == [] then []
    else
      var n := |items| - 1;
      LastIsReady(items, responses);
      Blocks(items[..n], responses) + Block(items[n].message, responses)
  }

  function IdSeqSet(ids: seq<string>): set<string> { set id | id in ids }

  /** What a flush of `items` against `responses` has done when it is at `f`. */
  ghost predicate Conserved(items: seq<Pending>, responses: Responses, f: Flushed) {
    && multiset(items) == multiset(f.released) + multiset(f.left)
    && NoDup(CallIds(f.released))
    && (forall id :: id in CallIds(f.released) ==> id in responses)
    && f.responses == responses - IdSeqSet(CallIds(f.released))
    && f.out == Blocks(f.released, responses)
    && (forall i :: 0 <= i < |f.left| ==> !Ready(f.left[i].message, f.responses))
  }

  lemma NoDupConcat(a: seq<string>, b: seq<string>)
    requires NoDup(a) && NoDup(b) && forall x :: x in b ==> x !in a
    ensures NoDup(a + b)
  {
    assert forall j :: 0 <= j < |b| ==> b[j] in b;
    assert forall i :: 0 <= i < |a| ==> a[i] in a;
  }

  /** The ids a released message takes are fresh, and they are exactly what leaves the responses. */
  lemma StepIds(responses: Responses, rest: Responses, taken: seq<string>, m: Message)
    requires NoDup(taken) && (forall id :: id in taken ==> id in responses)
    requires rest == responses - IdSeqSet(taken)
    requires Ready(m, rest) && NoDup(IdsOf(CallsOf(m)))
    ensures NoDup(taken + IdsOf(CallsOf(m)))
    ensures forall id :: id in taken + IdsOf(CallsOf(m)) ==> id in responses
    ensures rest - IdSet(m) == responses - IdSeqSet(taken + IdsOf(CallsOf(m)))
    ensures Ready(m, responses) && Block(m, rest) == Block(m, responses)
  {
    var ids := IdsOf(CallsOf(m));
    forall id | id in ids ensures id in rest {
      var i :| 0 <= i < |ids| && ids[i] == id;
      assert CallsOf(m)[i] in CallsOf(m);
    }
    NoDupConcat(taken, ids);
    IdSetIsIdSeqSet(CallsOf(m), m);
    assert IdSeqSet(taken + ids) == IdSeqSet(taken) + IdSeqSet(ids);
  }

  lemma ReleasedSnoc(released: seq<Pending>, p: Pending, responses: Responses)
    ensures CallIds(released + [p]) == CallIds(released) + IdsOf(CallsOf(p.message))
    ensures (forall id :: id in CallIds(released + [p]) ==> id in responses) && Ready(p.message, responses) ==>
      Blocks(released + [p], responses) == Blocks(released, responses) + Block(p.message, responses)
  {
    assert (released + [p])[..|released|] == released;
  }

  lemma StepConserves(items: seq<Pending>, responses: Responses, f: Flushed, p: Pending)
    requires Conserved(items, responses, f) && Proper(p)
    ensures Conserved(items + [p], responses, FlushStep(f, p))
  {
    if Ready(p.message, f.responses) {
      StepIds(responses, f.responses, CallIds(f.released), p.message);
      ReleasedSnoc(f.released, p, responses);
    }
  }

  lemma IdSetIsIdSeqSet(calls: seq<Call>, m: Message)
    requires calls == CallsOf(m)
    ensures IdSet(m) == IdSeqSet(IdsOf(calls))
  {
    forall id | id in IdSet(m) ensures id in IdsOf(calls) {
      var c :| c in calls && c.id == id;
      var i :| 0 <= i < |calls| && calls[i] == c;
      assert IdsOf(calls)[i] == id;
    }
    forall id | id in IdsOf(calls) ensures id in IdSet(m) {
      var i :| 0 <= i < |calls| && IdsOf(calls)[i] == id;
      assert calls[i] in calls;
    }
  }

  /** Flushing conserves: the blocked messages are released or left, the responses are emitted once
      or kept; the output is one block per released message, in order; and whatever is left still
      waits for a response. */
  lemma {:induction false} FlushConserves(items: seq<Pending>, responses: Responses)
    requires AllProper(items)
    ensures Conserved(items, responses, Flush(items, responses))
  {
    if items == [] {
      assert responses - IdSeqSet([]) == responses;
    } else {
      var n := |items| - 1;
      FlushConserves(items[..n], responses);
      StepConserves(items[..n], responses, Flush(items[..n], responses), items[n]);
      assert items[..n] + [items[n]] == items;
    }
  }

  lemma {:induction false} NothingReady(items: seq<Pending>, responses: Responses)
    requires forall i :: 0 <= i < |items| ==> !Ready(items[i].message, responses)
    ensures Flush(items, responses) == Flushed([], responses, [], items)
  {
    if items != [] {
      NothingReady(items[..|items| - 1], responses);
      assert items == items[..|items| - 1] + [items[|items| - 1]];
    }
  }

  /** A second flush emits nothing and changes nothing. */
  lemma SecondFlushIsIdle(items: seq<Pending>, responses: Responses)
    requires AllProper(items)
    ensures var f := Flush(items, responses); Flush(f.left, f.responses) == Flushed([], f.responses, [], f.left)
  {
    FlushConserves(items, responses);
    var f := Flush(items, responses);
    NothingReady(f.left, f.responses);
  }

  // ----- what is in the output ---------------------------------------------------------

  function Project<A, B>(f: A -> B, s: seq<A>): (r: seq<B>)
    ensures |r| == |s| && forall i :: 0 <= i < |r| ==> r[i] == f(s[i])
  {
    seq(|s|, i requires 0 <= i < |s| => f(s[i]))
  }

  lemma ProjectConcat<A, B>(f: A -> B, a: seq<A>, b: seq<A>)
    ensures Project(f, a + b) == Project(f, a) + Project(f, b)
  {
  }

  lemma ProjectWithout<A, B>(f: A -> B, s: seq<A>, i: nat)
    requires i < |s|
    ensures multiset(s) == multiset(s[..i] + s[i + 1..]) + multiset{s[i]}
    ensures multiset(Project(f, s)) == multiset(Project(f, s[..i] + s[i + 1..])) + multiset{f(s[i])}
  {
    var front, back := s[..i], s[i + 1..];
    assert s == front + [s[i]] + back;
    ProjectConcat(f, front, back);
    ProjectConcat(f, front + [s[i]], back);
    ProjectConcat(f, front, [s[i]]);
    assert Project(f, [s[i]]) == [f(s[i])];
  }

  lemma TakeOneOut<A>(a: seq<A>, b: seq<A>, i: nat)
    requires a != [] && multiset(a) <= multiset(b) && i < |b| && b[i] == a[|a| - 1]
    ensures multiset(a[..|a| - 1]) <= multiset(b[..i] + b[i + 1..])
  {
    var fewer, less := a[..|a| - 1], b[..i] + b[i + 1..];
    assert a == fewer + [b[i]];
    assert b == b[..i] + [b[i]] + b[i + 1..];
    assert multiset(a) == multiset(fewer) + multiset{b[i]} && multiset(b) == multiset(less) + multiset{b[i]};
    forall x ensures multiset(fewer)[x] <= multiset(less)[x] {
      assert multiset(a)[x] <= multiset(b)[x];
    }
  }

  lemma {:induction false} ProjectMonotone<A, B>(f: A -> B, a: seq<A>, b: seq<A>)
    requires multiset(a) <= multiset(b)
    ensures multiset(Project(f, a)) <= multiset(Project(f, b))
    decreases |a|
  {
    if a != [] {
      var n := |a| - 1;
      assert a[n] in multiset(a);
      assert a[n] in multiset(b);
      var i :| 0 <= i < |b| && b[i] == a[n];
      TakeOneOut(a, b, i);
      ProjectMonotone(f, a[..n], b[..i] + b[i + 1..]);
      assert a[..n] + a[n + 1..] == a[..n];
      ProjectWithout(f, a, n);
      ProjectWithout(f, b, i);
    }
  }

  const MESSAGE: Pending -> Message := (p: Pending) => p.message

  const RESPONSE: ((string, Message)) -> Message := (p: (string, Message)) => p.1

  function Pairs(ids: seq<string>, responses: Responses): (r: seq<(string, Message)>)
    requires forall id :: id in ids ==> id in responses
    ensures |r| == |ids| && forall i :: 0 <= i < |r| ==> r[i] == (ids[i], responses[ids[i]])
  {
    seq(|ids|, i requires 0 <= i < |ids| => (assert ids[i] in ids; (ids[i], responses[ids[i]])))
  }

  lemma OneBlock(m: Message, responses: Responses)
    requires Ready(m, responses)
    ensures forall id :: id in IdsOf(CallsOf(m)) ==> id in responses
    ensures Block(m, responses) == [m] + Project(RESPONSE, Pairs(IdsOf(CallsOf(m)), responses))
  {
    var ids := IdsOf(CallsOf(m));
    forall i | 0 <= i < |ids| ensures ids[i] in responses { assert CallsOf(m)[i] in CallsOf(m); }
    assert Answered(CallsOf(m), responses) == Project(RESPONSE, Pairs(ids, responses));
  }

  lemma PairsConcat(a: seq<string>, b: seq<string>, responses: Responses)
    requires forall id :: id in a + b ==> id in responses
    ensures (forall id :: id in a ==> id in responses) && forall id :: id in b ==> id in responses
    ensures Pairs(a + b, responses) == Pairs(a, responses) + Pairs(b, responses)
  {
    forall id | id in a || id in b ensures id in responses { assert id in a + b; }
  }

  /** What the output holds when the messages `released` went with the responses under `ids`. */
  ghost function Content(released: seq<Pending>, ids: seq<string>, responses: Responses): multiset<Message>
    requires forall id :: id in ids ==> id in responses
  {
    multiset(Project(MESSAGE, released)) + multiset(Project(RESPONSE, Pairs(ids, responses)))
  }

  lemma ContentSnoc(front: seq<Pending>, p: Pending, ids: seq<string>, responses: Responses)
    requires Ready(p.message, responses) && forall id :: id in ids ==> id in responses
    ensures forall id :: id in ids + IdsOf(CallsOf(p.message)) ==> id in responses
    ensures Content(front + [p], ids + IdsOf(CallsOf(p.message)), responses)
         == Content(front, ids, responses) + multiset(Block(p.message, responses))
  {
    var more := IdsOf(CallsOf(p.message));
    OneBlock(p.message, responses);
    forall id | id in ids + more ensures id in responses {}
    PairsConcat(ids, more, responses);
    ProjectConcat(RESPONSE, Pairs(ids, responses), Pairs(more, responses));
    ProjectConcat(MESSAGE, front, [p]);
    assert Project(MESSAGE, [p]) == [p.message];
  }

  /** The blocks hold the released messages and the responses taken for them, each as often as it was taken. */
  lemma {:induction false} BlocksHold(items: seq<Pending>, responses: Responses)
    requires forall id :: id in CallIds(items) ==> id in responses
    ensures multiset(Blocks(items, responses)) == Content(items, CallIds(items), responses)
  {
    if items != [] {
      var front, p := items[..|items| - 1], items[|items| - 1];
      assert items == front + [p];
      LastIsReady(items, responses);
      ReleasedSnoc(front, p, responses);
      ContentSnoc(front, p, CallIds(front), responses);
      BlocksHold(front, responses);
    }
  }

  // ----- whole runs --------------------------------------------------------------------

  datatype Op = Hold(p: Pending) | Respond(id: string, message: Message) | FlushNow

  /** The tracker over a run and what it has put out; `released` and `emitted` are the history of the
      messages released and of the responses that went with them, under their ids. */
  datatype Run = Run(items: seq<Pending>, responses: Responses, out: seq<Message>,
                     released: seq<Pending>, emitted: seq<(string, Message)>)

  /** `pending[p.id] = p.message`: in place if the id is there, at the end if not. */
  function WithPending(items: seq<Pending>, p: Pending): seq<Pending> {
    if p.id in Keys(items) then seq(|items|, i requires 0 <= i < |items| => if items[i].id == p.id then p else items[i])
    else items + [p]
  }

  function Step(r: Run, op: Op): Run
    requires AllProper(r.items)
  {
    match op
    case Hold(p) => r.(items := WithPending(r.items, p))
    case Respond(id, m) => r.(responses := r.responses[id := m])
    case FlushNow =>
      FlushConserves(r.items, r.responses);
      var f := Flush(r.items, r.responses);
      Run(f.left, f.responses, r.out + f.out, r.released + f.released,
          r.emitted + Pairs(CallIds(f.released), r.responses))
  }

  predicate ProperOps(ops: seq<Op>) { forall i :: 0 <= i < |ops| && ops[i].Hold? ==> Proper(ops[i].p) }

  /** The messages held over a run. */
  function Held(ops: seq<Op>): seq<Pending> {
    if ops == [] then []
    else Held(ops[..|ops| - 1]) + match ops[|ops| - 1] case Hold(p) => [p] case _ => []
  }

  /** The responses stored over a run, under their ids. */
  function Stored(ops: seq<Op>): seq<(string, Message)> {
    if ops == [] then []
    else Stored(ops[..|ops| - 1]) + match ops[|ops| - 1] case Respond(id, m) => [(id, m)] case _ => []
  }

  /** How often a response stands among those not yet emitted: once or not at all. */
  function Waiting(responses: Responses, id: string, m: Message): nat {
    if id in responses && responses[id] == m then 1 else 0
  }

  predicate ValidItems(items: seq<Pending>) { NoDup(Keys(items)) && AllProper(items) }

  lemma HoldKeepsValid(items: seq<Pending>, p: Pending)
    requires ValidItems(items) && Proper(p)
    ensures ValidItems(WithPending(items, p))
  {
    if p.id in Keys(items) {
      assert Keys(WithPending(items, p)) == Keys(items);
    } else {
      assert Keys(items + [p]) == Keys(items) + [p.id];
    }
  }

  lemma StepKeepsItemsValid(r: Run, op: Op)
    requires ValidItems(r.items) && (op.Hold? ==> Proper(op.p))
    ensures ValidItems(Step(r, op).items)
  {
    match op
    case Hold(p) => HoldKeepsValid(r.items, p);
    case Respond(_, _) =>
    case FlushNow => LeftStaysProper(r.items, r.responses);
  }

  function Runs(ops: seq<Op>): (r: Run)
    requires ProperOps(ops)
    ensures ValidItems(r.items)
  {
    if ops == [] then Run([], map[], [], [], [])
    else
      StepKeepsItemsValid(Runs(ops[..|ops| - 1]), ops[|ops| - 1]);
      Step(Runs(ops[..|ops| - 1]), ops[|ops| - 1])
  }

  /** The output is made of the messages released and the responses emitted. */
  ghost predicate OutIsHistory(r: Run) {
    multiset(r.out) == multiset(Project(MESSAGE, r.released)) + multiset(Project(RESPONSE, r.emitted))
  }

  /** No more messages have been released, or are still blocked, than were held. */
  ghost predicate HeldSuffice(r: Run, held: seq<Pending>) {
    multiset(r.released) + multiset(r.items) <= multiset(held)
  }

  /** No response has been emitted, or waits, more often than it was stored. */
  ghost predicate StoredSuffice(r: Run, stored: seq<(string, Message)>) {
    forall id, m :: multiset(r.emitted)[(id, m)] + Waiting(r.responses, id, m) <= multiset(stored)[(id, m)]
  }

  lemma FlushAddsHistory(r: Run)
    requires ValidItems(r.items) && OutIsHistory(r)
    ensures OutIsHistory(Step(r, FlushNow))
  {
    var f := Flush(r.items, r.responses);
    FlushConserves(r.items, r.responses);
    BlocksHold(f.released, r.responses);
    ProjectConcat(MESSAGE, r.released, f.released);
    ProjectConcat(RESPONSE, r.emitted, Pairs(CallIds(f.released), r.responses));
  }

  lemma HoldAddsAtMostOne(items: seq<Pending>, p: Pending)
    requires NoDup(Keys(items))
    ensures multiset(WithPending(items, p)) <= multiset(items) + multiset{p}
  {
    if p.id in Keys(items) {
      var i :| 0 <= i < |items| && Keys(items)[i] == p.id;
      assert forall j :: 0 <= j < |items| && j != i ==> Keys(items)[j] != p.id;
      assert WithPending(items, p) == items[i := p];
    }
  }

  lemma FlushKeepsHeld(r: Run, held: seq<Pending>)
    requires ValidItems(r.items) && HeldSuffice(r, held)
    ensures HeldSuffice(Step(r, FlushNow), held)
  {
    FlushConserves(r.items, r.responses);
  }

  lemma PairsOnce(ids: seq<string>, responses: Responses, id: string, m: Message)
    requires NoDup(ids) && forall x :: x in ids ==> x in responses
    ensures multiset(Pairs(ids, responses))[(id, m)] == (if id in ids && responses[id] == m then 1 else 0)
  {
    var ps := Pairs(ids, responses);
    assert NoDup(ps);
    Multiplicity(ps, (id, m));
    forall i | 0 <= i < |ps| ensures ids[i] in ids && ps[i] in multiset(ps) { assert ps[i] in ps; }
    if id in ids {
      var i :| 0 <= i < |ids| && ids[i] == id;
      assert ps[i] == (id, responses[id]);
    }
  }

  lemma FlushKeepsStored(r: Run, stored: seq<(string, Message)>)
    requires ValidItems(r.items) && StoredSuffice(r, stored)
    ensures StoredSuffice(Step(r, FlushNow), stored)
  {
    var f, after := Flush(r.items, r.responses), Step(r, FlushNow);
    FlushConserves(r.items, r.responses);
    forall id, m ensures multiset(after.emitted)[(id, m)] + Waiting(after.responses, id, m)
      <= multiset(stored)[(id, m)] {
      PairsOnce(CallIds(f.released), r.responses, id, m);
      assert id in f.responses <==> id in r.responses && id !in CallIds(f.released);
    }
  }

  lemma RespondKeepsStored(r: Run, stored: seq<(string, Message)>, id: string, m: Message)
    requires ValidItems(r.items) && StoredSuffice(r, stored)
    ensures StoredSuffice(Step(r, Respond(id, m)), stored + [(id, m)])
  {
    var after, more := Step(r, Respond(id, m)), stored + [(id, m)];
    forall i, x ensures multiset(after.emitted)[(i, x)] + Waiting(after.responses, i, x) <= multiset(more)[(i, x)] {
      assert multiset(r.emitted)[(i, x)] + Waiting(r.responses, i, x) <= multiset(stored)[(i, x)];
    }
  }

  /** Over any run the output is exactly the messages released and the responses emitted, each message
      having been released at most as often as it was held, and each response emitted at most as often
      as it was stored, less one while it waits. */
  lemma {:induction false} EmittedAtMostOnce(ops: seq<Op>)
    requires ProperOps(ops)
    ensures OutIsHistory(Runs(ops)) && HeldSuffice(Runs(ops), Held(ops)) && StoredSuffice(Runs(ops), Stored(ops))
  {
    if ops != [] {
      var n := |ops| - 1;
      var before, held, stored := Runs(ops[..n]), Held(ops[..n]), Stored(ops[..n]);
      EmittedAtMostOnce(ops[..n]);
      match ops[n]
      case Hold(p) =>
        HoldAddsAtMostOne(before.items, p);
        assert stored + [] == stored;
      case Respond(id, m) =>
        RespondKeepsStored(before, stored, id, m);
        assert held + [] == held;
      case FlushNow =>
        FlushAddsHistory(before);
        FlushKeepsHeld(before, held);
        FlushKeepsStored(before, stored);
        assert held + [] == held && stored + [] == stored;
    }
  }

  lemma PairwiseSuffices(emitted: seq<(string, Message)>, stored: seq<(string, Message)>)
    requires forall id, m :: multiset(emitted)[(id, m)] <= multiset(stored)[(id, m)]
    ensures multiset(emitted) <= multiset(stored)
  {
    forall p: (string, Message) ensures multiset(emitted)[p] <= multiset(stored)[p] {
      assert p == (p.0, p.1);
    }
  }

  /** So no message is put out more often than it was held or stored as a response: in particular a
      response that was stored once, and never held, is put out at most once. */
  lemma OutputIsAccountedFor(ops: seq<Op>)
    requires ProperOps(ops)
    ensures multiset(Runs(ops).out) <= multiset(Project(MESSAGE, Held(ops))) + multiset(Project(RESPONSE, Stored(ops)))
  {
    var r := Runs(ops);
    EmittedAtMostOnce(ops);
    assert forall id, m :: multiset(r.emitted)[(id, m)] + Waiting(r.responses, id, m) <= multiset(Stored(ops))[(id, m)];
    PairwiseSuffices(r.emitted, Stored(ops));
    ProjectMonotone(RESPONSE, r.emitted, Stored(ops));
    assert multiset(r.released) <= multiset(Held(ops));
    ProjectMonotone(MESSAGE, r.released, Held(ops));
  }

  // ----- flushed output needs no filtering ---------------------------------------------

  /** Responses are tool messages stored under their own ids, which are not empty; blocked messages are
      the assistant's. */
  predicate WellKeyed(items: seq<Pending>, responses: Responses) {
    && (forall id :: id in responses ==> id != "" && responses[id].role.Tool? && responses[id].toolCallId == Some(id))
    && forall i :: 0 <= i < |items| ==> items[i].message.role.Assistant?
  }

  lemma {:induction false} IdsOfConcat(a: seq<Message>, b: seq<Message>)
    ensures Filter.CollectToolCallIds(a + b) == Filter.CollectToolCallIds(a) + Filter.CollectToolCallIds(b)
    ensures Filter.CollectToolResponseIds(a + b) == Filter.CollectToolResponseIds(a) + Filter.CollectToolResponseIds(b)
  {
    if b == [] {
      assert a + b == a;
    } else {
      IdsOfConcat(a, b[..|b| - 1]);
      assert (a + b)[..|a + b| - 1] == a + b[..|b| - 1];
    }
  }

  lemma IdsOfResponse(m: Message, id: string)
    requires m.role.Tool? && m.toolCallId == Some(id) && id != ""
    ensures Filter.CollectToolCallIds([m]) == {} && Filter.CollectToolResponseIds([m]) == {id}
  {
    assert [m][..0] == [];
  }

  lemma AnsweredSnoc(calls: seq<Call>, responses: Responses)
    requires calls != [] && forall c :: c in calls ==> c.id in responses
    ensures var n := |calls| - 1;
      && calls[n].id in responses && (forall c :: c in calls[..n] ==> c.id in responses)
      && Answered(calls, responses) == Answered(calls[..n], responses) + [responses[calls[n].id]]
      && IdSeqSet(IdsOf(calls)) == IdSeqSet(IdsOf(calls[..n])) + {calls[n].id}
  {
    var n := |calls| - 1;
    assert calls == calls[..n] + [calls[n]];
    assert IdsOf(calls) == IdsOf(calls[..n]) + [calls[n].id];
  }

  lemma {:induction false} IdsOfAnswered(calls: seq<Call>, responses: Responses)
    requires (forall c :: c in calls ==> c.id in responses) && WellKeyed([], responses)
    ensures Filter.CollectToolCallIds(Answered(calls, responses)) == {}
    ensures Filter.CollectToolResponseIds(Answered(calls, responses)) == IdSeqSet(IdsOf(calls))
  {
    if calls != [] {
      var n := |calls| - 1;
      var id := calls[n].id;
      AnsweredSnoc(calls, responses);
      IdsOfAnswered(calls[..n], responses);
      IdsOfConcat(Answered(calls[..n], responses), [responses[id]]);
      IdsOfResponse(responses[id], id);
    }
  }

  lemma IdsOfBlock(m: Message, responses: Responses)
    requires Ready(m, responses) && WellKeyed([], responses) && m.role.Assistant?
    ensures Filter.CollectToolCallIds(Block(m, responses)) == IdSet(m)
    ensures Filter.CollectToolResponseIds(Block(m, responses)) == IdSet(m)
  {
    IdsOfConcat([m], Answered(CallsOf(m), responses));
    IdsOfAnswered(CallsOf(m), responses);
    IdSetIsIdSeqSet(CallsOf(m), m);
    assert [m][..0] == [];
    assert Filter.CollectToolCallIds([m]) == Filter.IdsCalled(m) == IdSet(m);
    assert Filter.CollectToolResponseIds([m]) == {};
  }

  lemma OneMoreBlock(before: seq<Message>, taken: seq<string>, m: Message, responses: Responses)
    requires Ready(m, responses) && WellKeyed([], responses) && m.role.Assistant?
    requires Filter.CollectToolCallIds(before) == Filter.CollectToolResponseIds(before) == IdSeqSet(taken)
    ensures var out := before + Block(m, responses);
      Filter.CollectToolCallIds(out) == Filter.CollectToolResponseIds(out) == IdSeqSet(taken + IdsOf(CallsOf(m)))
  {
    IdsOfConcat(before, Block(m, responses));
    IdsOfBlock(m, responses);
    IdSetIsIdSeqSet(CallsOf(m), m);
    assert IdSeqSet(taken + IdsOf(CallsOf(m))) == IdSeqSet(taken) + IdSeqSet(IdsOf(CallsOf(m)));
  }

  lemma {:induction false} BlocksAreClosed(items: seq<Pending>, responses: Responses)
    requires WellKeyed(items, responses) && forall id :: id in CallIds(items) ==> id in responses
    ensures Filter.CollectToolCallIds(Blocks(items, responses)) == IdSeqSet(CallIds(items))
    ensures Filter.CollectToolResponseIds(Blocks(items, responses)) == IdSeqSet(CallIds(items))
  {
    if items != [] {
      var n := |items| - 1;
      BlocksAreClosed(items[..n], responses);
      var m := items[n].message;
      assert forall c :: c in CallsOf(m) ==> c.id in IdsOf(CallsOf(m));
      OneMoreBlock(Blocks(items[..n], responses), CallIds(items[..n]), m, responses);
    }
  }

  lemma {:induction false} CollectedContain(messages: seq<Message>, i: nat, c: Call)
    requires i < |messages| && messages[i].role.Assistant? && c in CallsOf(messages[i]) && c.id != ""
    ensures c.id in Filter.CollectToolCallIds(messages)
  {
    Filter.IdsAreCollected(messages, i);
    assert c.id in Filter.IdsCalled(messages[i]);
  }

  predicate CallsNamed(m: Message) { m.role.Assistant? ==> forall c :: c in CallsOf(m) ==> c.id != "" }

  lemma BlockIsNamed(m: Message, responses: Responses)
    requires WellKeyed([], responses) && forall id :: id in IdsOf(CallsOf(m)) ==> id in responses
    requires forall c :: c in CallsOf(m) ==> c.id in responses
    ensures forall x :: x in Block(m, responses) ==> CallsNamed(x)
  {
    var block := Block(m, responses);
    forall i | 0 <= i < |block| ensures CallsNamed(block[i]) {
      if i > 0 { assert block[i] == responses[CallsOf(m)[i - 1].id]; }
    }
  }

  lemma {:induction false} BlockCallsNotEmpty(items: seq<Pending>, responses: Responses)
    requires WellKeyed(items, responses) && forall id :: id in CallIds(items) ==> id in responses
    ensures forall x :: x in Blocks(items, responses) ==> CallsNamed(x)
  {
    if items != [] {
      BlockCallsNotEmpty(items[..|items| - 1], responses);
      var m := items[|items| - 1].message;
      forall c | c in CallsOf(m) ensures c.id in responses { assert c.id in IdsOf(CallsOf(m)); }
      BlockIsNamed(m, responses);
    }
  }

  lemma NamedCallsAreSettled(out: seq<Message>, i: nat, callIds: set<string>, responseIds: set<string>)
    requires i < |out| && CallsNamed(out[i]) && callIds == responseIds
    requires callIds == Filter.CollectToolCallIds(out) && responseIds == Filter.CollectToolResponseIds(out)
    ensures Filter.Settled(out[i], callIds, responseIds)
  {
    Filter.IdsAreCollected(out, i);
    if out[i].role.Assistant? {
      forall c | c in CallsOf(out[i]) ensures c.id in responseIds { CollectedContain(out, i, c); }
    }
  }

  lemma BlocksPassFilter(items: seq<Pending>, responses: Responses, out: seq<Message>)
    requires WellKeyed(items, responses) && forall id :: id in CallIds(items) ==> id in responses
    requires out == Blocks(items, responses)
    ensures Filter.Filtered(out) == out
  {
    BlocksAreClosed(items, responses);
    BlockCallsNotEmpty(items, responses);
    var callIds, responseIds := Filter.CollectToolCallIds(out), Filter.CollectToolResponseIds(out);
    forall i | 0 <= i < |out| ensures Filter.Settled(out[i], callIds, responseIds) {
      assert out[i] in out;
      NamedCallsAreSettled(out, i, callIds, responseIds);
    }
    Filter.FilterIsIdempotent(out);
  }

  /** Flushed output is a fixpoint of the filter. */
  lemma FlushedOutputPassesFilter(items: seq<Pending>, responses: Responses)
    requires AllProper(items) && WellKeyed(items, responses)
    ensures Filter.Filtered(Flush(items, responses).out) == Flush(items, responses).out
  {
    var f := Flush(items, responses);
    FlushConserves(items, responses);
    ReleasedAreItems(items, responses);
    forall i | 0 <= i < |f.released| ensures f.released[i].message.role.Assistant? { assert f.released[i] in items; }
    BlocksPassFilter(f.released, responses, f.out);
  }
}
