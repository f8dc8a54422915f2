/** The turn-context store keeps itself clean, and restoring undoes stripping. */
module TurnContextProperties {
  import opened PyText
  import opened PyCollections
  import opened RecentlyUsed
  import opened TurnContext

  // ----- the store stays clean ---------------------------------------------------------

  function Ids(turns: seq<Record>): (r: seq<Identity>)
    ensures |r| == |turns| && forall i :: 0 <= i < |r| ==> r[i] == turns[i].identity
  {
    seq(|turns|, i requires 0 <= i < |turns| => turns[i].identity)
  }

  /** No dangling reference and no garbage, contents under their own digests, each identity once,
      and at most 64 turns. */
  ghost predicate Clean(p: Payload) {
    && p.blocks.Keys == Referenced(p.turns)
    && (forall d :: d in p.blocks ==> Sha(p.blocks[d]) == d)
    && NoDup(Ids(p.turns))
    && |p.turns| <= MAX_TURNS
  }

  lemma {:induction false} AddBlocksKeys(pool: map<Digest, string>, blocks: seq<string>)
    ensures AddBlocks(pool, blocks).Keys == pool.Keys + IdSet(Digests(blocks))
    ensures (forall d :: d in pool ==> Sha(pool[d]) == d) ==>
      forall d :: d in AddBlocks(pool, blocks) ==> Sha(AddBlocks(pool, blocks)[d]) == d
  {
    if blocks != [] {
      var n := |blocks| - 1;
      AddBlocksKeys(pool, blocks[..n]);
      assert Digests(blocks) == Digests(blocks[..n]) + [Sha(blocks[n])];
    }
  }

  lemma {:induction false} ReferencedMeaning(turns: seq<Record>)
    ensures forall d :: d in Referenced(turns) <==> exists i :: 0 <= i < |turns| && d in turns[i].blockIds
  {
    if turns != [] {
      var n := |turns| - 1;
      ReferencedMeaning(turns[..n]);
      forall d | d in Referenced(turns) ensures exists i :: 0 <= i < |turns| && d in turns[i].blockIds {
        if d in Referenced(turns[..n]) {
          var i :| 0 <= i < n && d in turns[..n][i].blockIds;
          assert d in turns[i].blockIds;
        } else {
          assert d in turns[n].blockIds;
        }
      }
      forall d | exists i :: 0 <= i < |turns| && d in turns[i].blockIds ensures d in Referenced(turns) {
        var i :| 0 <= i < |turns| && d in turns[i].blockIds;
        if i < n { assert d in turns[..n][i].blockIds; }
      }
    }
  }

  lemma {:induction false} OtherTurnsIds(turns: seq<Record>, identity: Identity)
    ensures Ids(OtherTurns(turns, identity)) == Without(Ids(turns), identity)
  {
    if turns != [] {
      var n := |turns| - 1;
      OtherTurnsIds(turns[..n], identity);
      assert Ids(turns)[..n] == Ids(turns[..n]);
      var front := OtherTurns(turns[..n], identity);
      assert Ids(front + [turns[n]]) == Ids(front) + [turns[n].identity];
    }
  }

  lemma {:induction false} OtherTurnsMeaning(turns: seq<Record>, identity: Identity)
    ensures forall r :: r in OtherTurns(turns, identity) <==> r in turns && r.identity != identity
    ensures |OtherTurns(turns, identity)| <= |turns|
  {
    if turns != [] {
      var n := |turns| - 1;
      OtherTurnsMeaning(turns[..n], identity);
      assert turns == turns[..n] + [turns[n]];
    }
  }

  /** The other turns and a new one, each identity once. */
  lemma OthersAndNew(turns: seq<Record>, r: Record, all: seq<Record>)
    requires NoDup(Ids(turns)) && all == OtherTurns(turns, r.identity) + [r]
    ensures NoDup(Ids(all))
  {
    OtherTurnsIds(turns, r.identity);
    NoDupSnoc(Without(Ids(turns), r.identity), r.identity);
    assert Ids(all) == Without(Ids(turns), r.identity) + [r.identity];
  }

  lemma NewestKeepsNoDup(all: seq<Record>)
    requires NoDup(Ids(all))
    ensures NoDup(Ids(NewestTurns(all)))
  {
    var turns := NewestTurns(all);
    NoDupSuffix(Ids(all), |all| - |turns|);
    assert Ids(turns) == Ids(all)[|all| - |turns|..];
  }

  lemma NewestMembers(all: seq<Record>)
    requires all != []
    ensures var turns := NewestTurns(all);
      && 0 < |turns| <= MAX_TURNS && turns[|turns| - 1] == all[|all| - 1]
      && (forall r :: r in turns ==> r in all) && (|all| <= MAX_TURNS ==> turns == all)
  {
    var turns := NewestTurns(all);
    forall i | 0 <= i < |turns| ensures turns[i] in all { assert turns[i] == all[|all| - |turns| + i]; }
  }

  /** The turns that a record leaves: the retained ones, all of them old or the new one, each identity once. */
  lemma NewTurns(p: Payload, identity: Identity, blocks: seq<string>)
    requires NoDup(Ids(p.turns))
    ensures var turns := Recorded(p, identity, blocks).turns;
      && NoDup(Ids(turns)) && |turns| <= MAX_TURNS
      && turns != [] && turns[|turns| - 1] == Record(identity, Digests(blocks))
      && (forall r :: r in turns ==> r == Record(identity, Digests(blocks)) || (r in p.turns && r.identity != identity))
      && (|p.turns| < MAX_TURNS ==> forall r :: r in p.turns && r.identity != identity ==> r in turns)
  {
    var r := Record(identity, Digests(blocks));
    var others := OtherTurns(p.turns, identity);
    OtherTurnsMeaning(p.turns, identity);
    OthersAndNew(p.turns, r, others + [r]);
    NewestKeepsNoDup(others + [r]);
    NewestMembers(others + [r]);
    assert Recorded(p, identity, blocks).turns == NewestTurns(others + [r]);
  }

  lemma ReferenceIsPooled(p: Payload, identity: Identity, blocks: seq<string>, turns: seq<Record>, d: Digest)
    requires p.blocks.Keys == Referenced(p.turns) && d in Referenced(turns)
    requires forall r :: r in turns ==> r == Record(identity, Digests(blocks)) || r in p.turns
    ensures d in AddBlocks(p.blocks, blocks)
  {
    AddBlocksKeys(p.blocks, blocks);
    ReferencedMeaning(turns);
    var i :| 0 <= i < |turns| && d in turns[i].blockIds;
    assert turns[i] in turns;
    if turns[i] in p.turns {
      ReferencedMeaning(p.turns);
      var j :| 0 <= j < |p.turns| && p.turns[j] == turns[i];
    }
  }

  lemma RecordedIsClean(p: Payload, identity: Identity, blocks: seq<string>)
    requires Clean(p)
    ensures Clean(Recorded(p, identity, blocks))
  {
    var after := Recorded(p, identity, blocks);
    NewTurns(p, identity, blocks);
    AddBlocksKeys(p.blocks, blocks);
    forall d | d in Referenced(after.turns) ensures d in AddBlocks(p.blocks, blocks) {
      ReferenceIsPooled(p, identity, blocks, after.turns, d);
    }
  }

  /** Every record keeps the store clean, whatever the messages are. */
  lemma RecordKeepsClean(messages: seq<Message>, payload: Option<Payload>)
    requires payload.Some? ==> Clean(payload.value)
    ensures var after := RecordTurn(messages, payload); after.Some? ==> Clean(after.value)
  {
    var u := LastUser(messages);
    if u.Some? && Trailing(messages[..u.value]) != [] {
      RecordedIsClean(if payload.Some? then payload.value else EMPTY, IdentityAt(messages, u.value),
                      Trailing(messages[..u.value]));
    }
  }

  /** The store after recording each of the message lists in turn. */
  function RecordAll(lists: seq<seq<Message>>): Option<Payload> {
    if lists == [] then None else RecordTurn(lists[|lists| - 1], RecordAll(lists[..|lists| - 1]))
  }

  /** After any run of records the stored block ids are exactly those the retained turns refer to. */
  lemma {:induction false} RunsStayClean(lists: seq<seq<Message>>)
    ensures RecordAll(lists).Some? ==> Clean(RecordAll(lists).value)
  {
    if lists != [] {
      RunsStayClean(lists[..|lists| - 1]);
      RecordKeepsClean(lists[|lists| - 1], RecordAll(lists[..|lists| - 1]));
    }
  }

  function Turns(payload: Option<Payload>): seq<Record> { if payload.Some? then payload.value.turns else [] }

  /** The identity that recording these messages stores, if any. */
  function Stores(messages: seq<Message>): Option<Identity> {
    match LastUser(messages)
    case None => None
    case Some(u) => if Trailing(messages[..u]) == [] then None else Some(IdentityAt(messages, u))
  }

  lemma RecordedTouches(p: Payload, d: Identity, blocks: seq<string>)
    ensures Ids(Recorded(p, d, blocks).turns) == Newest(MAX_TURNS, Touch(Ids(p.turns), d))
  {
    OtherTurnsIds(p.turns, d);
    var all := OtherTurns(p.turns, d) + [Record(d, Digests(blocks))];
    assert Ids(all) == Touch(Ids(p.turns), d);
    assert Ids(NewestTurns(all)) == Newest(MAX_TURNS, Ids(all));
  }

  lemma RecordTouches(messages: seq<Message>, payload: Option<Payload>)
    ensures Ids(Turns(RecordTurn(messages, payload)))
         == match Stores(messages) case None => Ids(Turns(payload))
                                   case Some(d) => Newest(MAX_TURNS, Touch(Ids(Turns(payload)), d))
  {
    if Stores(messages).Some? {
      var p := if payload.Some? then payload.value else EMPTY;
      RecordedTouches(p, Stores(messages).value, Trailing(messages[..LastUser(messages).value]));
    }
  }

  /** The identities that the records of a run were for, in the order of recording. */
  function Stored(lists: seq<seq<Message>>): seq<Identity> {
    if lists == [] then []
    else
      var before := Stored(lists[..|lists| - 1]);
      match Stores(lists[|lists| - 1]) case None => before case Some(d) => before + [d]
  }

  /** After any run the retained turns are exactly the 64 recorded most recently, in that order. */
  lemma {:induction false} RetainedAreNewest(lists: seq<seq<Message>>)
    ensures Ids(Turns(RecordAll(lists))) == Newest(64, Recency(Stored(lists)))
  {
    if lists != [] {
      var n := |lists| - 1;
      RetainedAreNewest(lists[..n]);
      RecordTouches(lists[n], RecordAll(lists[..n]));
      if Stores(lists[n]).Some? {
        RecencySnoc(Stored(lists[..n]), Stores(lists[n]).value);
        TouchNewest(MAX_TURNS, Recency(Stored(lists[..n])), Stores(lists[n]).value);
      }
    }
  }

  // ----- stripping and restoring -------------------------------------------------------

  /** The transcript without its context blocks. */
  function Strip(messages: seq<Message>): seq<Message> {
    if messages == [] then []
    else
      var front, m := Strip(messages[..|messages| - 1]), messages[|messages| - 1];
      if IsContext(m) then front else front + [m]
  }

  /** The transcript with the context blocks of the user messages in `kept` only. */
  function KeepContextOf(messages: seq<Message>, kept: set<Identity>): seq<Message> {
    if messages == [] then []
    else
      var n := |messages| - 1;
      var front, m := KeepContextOf(messages[..n], kept), messages[n];
      if IsContext(m) then front
      else if IsUser(m) && IdentityAfter(messages[..n], m.text) in kept then
        front + AsMessages(Trailing(messages[..n])) + [m]
      else front + [m]
  }

  /** Every context block stands, with others perhaps, right before a user message. */
  predicate WellPlaced(messages: seq<Message>) {
    EndsWithoutContext(messages) && PlacedSoFar(messages)
  }

  predicate EndsWithoutContext(messages: seq<Message>) {
    messages == [] || !IsContext(messages[|messages| - 1])
  }

  predicate PlacedSoFar(messages: seq<Message>) {
    forall i :: 0 <= i < |messages| - 1 ==> PlacedAt(messages, i)
  }

  predicate PlacedAt(messages: seq<Message>, i: nat)
    requires i < |messages| - 1
  {
    IsContext(messages[i]) ==> IsContext(messages[i + 1]) || IsUser(messages[i + 1])
  }

  /** The user messages that have context. */
  function ContextTurns(messages: seq<Message>): set<Identity> {
    if messages == [] then {}
    else
      var n := |messages| - 1;
      var m := messages[n];
      ContextTurns(messages[..n])
      + if IsUser(m) && Trailing(messages[..n]) != [] then {IdentityAfter(messages[..n], m.text)} else {}
  }

  lemma {:induction false} StripKeepsOccurrences(messages: seq<Message>, text: string)
    ensures Occurrences(Strip(messages), text) == Occurrences(messages, text)
  {
    if messages != [] {
      var n := |messages| - 1;
      StripKeepsOccurrences(messages[..n], text);
      var front := Strip(messages[..n]);
      if !IsContext(messages[n]) { assert (front + [messages[n]])[..|front|] == front; }
    }
  }

  /** The records say of every user message they know what stands before it in `messages`. */
  ghost predicate RecordsMatch(messages: seq<Message>, records: map<Identity, seq<string>>) {
    forall i :: 0 <= i < |messages| && IsUser(messages[i]) && IdentityAt(messages, i) in records ==>
      records[IdentityAt(messages, i)] == Trailing(messages[..i])
  }

  lemma PrefixMatches(messages: seq<Message>, records: map<Identity, seq<string>>)
    requires RecordsMatch(messages, records) && messages != []
    ensures RecordsMatch(messages[..|messages| - 1], records)
  {
    var front := messages[..|messages| - 1];
    forall i | 0 <= i < |front| && IsUser(front[i]) && IdentityAt(front, i) in records
      ensures records[IdentityAt(front, i)] == Trailing(front[..i])
    {
      assert front[i] == messages[i] && front[..i] == messages[..i];
      assert IdentityAt(messages, i) in records;
    }
  }

  lemma RestoreSnoc(before: seq<Message>, m: Message, records: map<Identity, seq<string>>)
    ensures RestoreWith(before + [m], records)
         == if IsUser(m) && IdentityAfter(before, m.text) in records then
              PopContext(RestoreWith(before, records)) + AsMessages(records[IdentityAfter(before, m.text)]) + [m]
            else RestoreWith(before, records) + [m]
  {
    assert (before + [m])[..|before|] == before;
  }

  /** One more message that is no context block. */
  lemma RestoreNext(before: seq<Message>, m: Message, messages: seq<Message>, records: map<Identity, seq<string>>)
    requires messages != [] && before == messages[..|messages| - 1] && m == messages[|messages| - 1] && !IsContext(m)
    requires RestoreWith(Strip(before), records) == KeepContextOf(before, records.Keys)
    requires EndsWithoutContext(KeepContextOf(before, records.Keys))
    requires IsUser(m) && IdentityAfter(before, m.text) in records ==>
      records[IdentityAfter(before, m.text)] == Trailing(before)
    ensures RestoreWith(Strip(messages), records) == KeepContextOf(messages, records.Keys)
    ensures EndsWithoutContext(KeepContextOf(messages, records.Keys))
  {
    RestoreSnoc(Strip(before), m, records);
    if IsUser(m) { StripKeepsOccurrences(before, m.text); }
  }

  lemma {:induction false} RestoreStripped(messages: seq<Message>, records: map<Identity, seq<string>>)
    requires RecordsMatch(messages, records)
    ensures RestoreWith(Strip(messages), records) == KeepContextOf(messages, records.Keys)
    ensures EndsWithoutContext(KeepContextOf(messages, records.Keys))
  {
    if messages != [] {
      var n := |messages| - 1;
      PrefixMatches(messages, records);
      RestoreStripped(messages[..n], records);
      if !IsContext(messages[n]) {
        assert IsUser(messages[n]) ==> IdentityAt(messages, n) == IdentityAfter(messages[..n], messages[n].text);
        RestoreNext(messages[..n], messages[n], messages, records);
      }
    }
  }

  lemma {:induction false} TrailingAreContext(messages: seq<Message>)
    ensures forall i :: 0 <= i < |Trailing(messages)| ==> IsTurnContextText(Trailing(messages)[i])
  {
    if messages != [] && IsContext(messages[|messages| - 1]) {
      TrailingAreContext(messages[..|messages| - 1]);
    }
  }

  /** Keeping the context of every turn that has some changes nothing; leaving out any of it makes the
      transcript shorter. */
  predicate KeepsAllOrLess(messages: seq<Message>, kept: set<Identity>) {
    && (ContextTurns(messages) <= kept ==> KeepContextOf(messages, kept) + AsMessages(Trailing(messages)) == messages)
    && |KeepContextOf(messages, kept)| + |Trailing(messages)| <= |messages|
    && (!(ContextTurns(messages) <= kept) ==> |KeepContextOf(messages, kept)| + |Trailing(messages)| < |messages|)
  }

  lemma KeepContext(before: seq<Message>, m: Message, messages: seq<Message>, kept: set<Identity>)
    requires messages != [] && before == messages[..|messages| - 1] && m == messages[|messages| - 1]
    requires IsContext(m) && KeepsAllOrLess(before, kept)
    ensures KeepsAllOrLess(messages, kept)
  {
    assert messages == before + [m] && m == Chat(System, m.text);
    assert AsMessages(Trailing(messages)) == AsMessages(Trailing(before)) + [m];
  }

  lemma KeepUser(before: seq<Message>, m: Message, messages: seq<Message>, kept: set<Identity>)
    requires messages != [] && before == messages[..|messages| - 1] && m == messages[|messages| - 1]
    requires IsUser(m) && !IsContext(m) && KeepsAllOrLess(before, kept)
    ensures KeepsAllOrLess(messages, kept)
  {
    assert messages == before + [m];
    assert AsMessages(Trailing(messages)) == [];
    if Trailing(before) == [] { assert AsMessages(Trailing(before)) == []; }
  }

  lemma KeepOther(before: seq<Message>, m: Message, messages: seq<Message>, kept: set<Identity>)
    requires messages != [] && before == messages[..|messages| - 1] && m == messages[|messages| - 1]
    requires !IsUser(m) && !IsContext(m) && Trailing(before) == [] && KeepsAllOrLess(before, kept)
    ensures KeepsAllOrLess(messages, kept)
  {
    assert messages == before + [m];
    assert AsMessages(Trailing(messages)) == AsMessages(Trailing(before)) == [];
  }

  lemma {:induction false} KeepAllOrLess(messages: seq<Message>, kept: set<Identity>)
    requires PlacedSoFar(messages)
    ensures KeepsAllOrLess(messages, kept)
  {
    if messages != [] {
      var n := |messages| - 1;
      forall i | 0 <= i < n - 1 ensures PlacedAt(messages[..n], i) { assert PlacedAt(messages, i); }
      KeepAllOrLess(messages[..n], kept);
      if IsContext(messages[n]) {
        KeepContext(messages[..n], messages[n], messages, kept);
      } else if IsUser(messages[n]) {
        KeepUser(messages[..n], messages[n], messages, kept);
      } else {
        assert n > 0 ==> PlacedAt(messages, n - 1);
        KeepOther(messages[..n], messages[n], messages, kept);
      }
    }
  }

  /** Stripping a transcript and restoring it gives it back exactly when the records know
      every turn that has context. */
  lemma RestoreUndoesStrip(messages: seq<Message>, records: map<Identity, seq<string>>)
    requires WellPlaced(messages) && RecordsMatch(messages, records)
    ensures RestoreWith(Strip(messages), records) == messages <==> ContextTurns(messages) <= records.Keys
  {
    RestoreStripped(messages, records);
    KeepAllOrLess(messages, records.Keys);
  }

  // ----- recording a conversation as it grows ------------------------------------------

  /** The record is about a user message of the transcript and lists the digests of what stands before it. */
  ghost predicate About(messages: seq<Message>, r: Record, i: nat) {
    i < |messages| && IsUser(messages[i]) && r.identity == IdentityAt(messages, i)
    && r.blockIds == Digests(Trailing(messages[..i]))
      && Trailing(messages[..i]) != []
  }

  ghost predicate Faithful(messages: seq<Message>, p: Payload) {
    && Clean(p)
    && forall r :: r in p.turns ==> exists i :: About(messages, r, i)
  }

  lemma PrefixIdentity(messages: seq<Message>, n: nat, i: nat)
    requires i < n <= |messages| && IsUser(messages[i])
    ensures IdentityAt(messages[..n], i) == IdentityAt(messages, i) && messages[..n][..i] == messages[..i]
  {
    assert messages[..n][..i] == messages[..i];
  }

  /** Recording any prefix of the transcript keeps the store faithful to the whole transcript. */
  lemma RecordPrefixKeepsFaithful(messages: seq<Message>, n: nat, payload: Option<Payload>)
    requires n <= |messages| && (payload.Some? ==> Faithful(messages, payload.value))
    ensures var after := RecordTurn(messages[..n], payload); after.Some? ==> Faithful(messages, after.value)
  {
    RecordKeepsClean(messages[..n], payload);
    var p := if payload.Some? then payload.value else EMPTY;
    var last := LastUser(messages[..n]);
    if last.Some? && Trailing(messages[..n][..last.value]) != [] {
      var u := last.value;
      PrefixIdentity(messages, n, u);
      var identity, blocks := IdentityAt(messages, u), Trailing(messages[..u]);
      NewTurns(p, identity, blocks);
      assert About(messages, Record(identity, Digests(blocks)), u);
    }
  }

  lemma {:induction false} KnownBlocksOfDigests(pool: map<Digest, string>, blocks: seq<string>)
    requires forall i :: 0 <= i < |blocks| ==>
      Sha(blocks[i]) in pool && pool[Sha(blocks[i])] == blocks[i] && IsTurnContextText(blocks[i])
    ensures KnownBlocks(pool, Digests(blocks)) == blocks
  {
    if blocks != [] {
      var n := |blocks| - 1;
      KnownBlocksOfDigests(pool, blocks[..n]);
      assert Digests(blocks)[..n] == Digests(blocks[..n]);
      assert blocks == blocks[..n] + [blocks[n]];
    }
  }

  lemma {:induction false} RecordsOfTurns(pool: map<Digest, string>, turns: seq<Record>, i: nat)
    requires NoDup(Ids(turns)) && i < |turns|
    ensures turns[i].identity in Records(pool, turns)
    ensures Records(pool, turns)[turns[i].identity] == KnownBlocks(pool, turns[i].blockIds)
  {
    var n := |turns| - 1;
    if i < n {
      assert Ids(turns)[..n] == Ids(turns[..n]) && Ids(turns)[i] != Ids(turns)[n];
      RecordsOfTurns(pool, turns[..n], i);
    }
  }

  lemma {:induction false} RecordsKeys(pool: map<Digest, string>, turns: seq<Record>)
    ensures forall d :: d in Records(pool, turns) <==> d in Ids(turns)
  {
    if turns != [] {
      var n := |turns| - 1;
      RecordsKeys(pool, turns[..n]);
      assert Ids(turns) == Ids(turns[..n]) + [turns[n].identity];
    }
  }

  lemma FaithfulRecord(messages: seq<Message>, p: Payload, k: nat, i: nat)
    requires Faithful(messages, p) && k < |p.turns| && About(messages, p.turns[k], i)
    ensures KnownBlocks(p.blocks, p.turns[k].blockIds) == Trailing(messages[..i])
  {
    var blocks := Trailing(messages[..i]);
    TrailingAreContext(messages[..i]);
    ReferencedMeaning(p.turns);
    forall j | 0 <= j < |blocks|
      ensures Sha(blocks[j]) in p.blocks && p.blocks[Sha(blocks[j])] == blocks[j] && IsTurnContextText(blocks[j])
    {
      assert Digests(blocks)[j] in p.turns[k].blockIds;
    }
    KnownBlocksOfDigests(p.blocks, blocks);
  }

  lemma FaithfulRecordsMatch(messages: seq<Message>, p: Payload)
    requires Faithful(messages, p)
    ensures RecordsMatch(messages, Records(p.blocks, p.turns))
  {
    var records := Records(p.blocks, p.turns);
    RecordsKeys(p.blocks, p.turns);
    forall i | 0 <= i < |messages| && IsUser(messages[i]) && IdentityAt(messages, i) in records
      ensures records[IdentityAt(messages, i)] == Trailing(messages[..i])
    {
      var k :| 0 <= k < |p.turns| && Ids(p.turns)[k] == IdentityAt(messages, i);
      assert p.turns[k] in p.turns;
      var j :| About(messages, p.turns[k], j);
      IdentitiesDiffer(messages, i, j);
      RecordsOfTurns(p.blocks, p.turns, k);
      FaithfulRecord(messages, p, k, i);
    }
  }

  /** A conversation as it grows: the prefixes with the given lengths, in that order. */
  function Prefixes(messages: seq<Message>, lengths: seq<nat>): (lists: seq<seq<Message>>)
    requires forall j :: 0 <= j < |lengths| ==> lengths[j] <= |messages|
    ensures |lists| == |lengths| && forall j :: 0 <= j < |lists| ==> lists[j] == messages[..lengths[j]]
  {
    seq(|lengths|, j requires 0 <= j < |lengths| => messages[..lengths[j]])
  }

  lemma {:induction false} PrefixRunIsFaithful(messages: seq<Message>, lengths: seq<nat>)
    requires forall j :: 0 <= j < |lengths| ==> lengths[j] <= |messages|
    ensures var p := RecordAll(Prefixes(messages, lengths)); p.Some? ==> Faithful(messages, p.value)
  {
    if lengths != [] {
      var n := |lengths| - 1;
      assert Prefixes(messages, lengths)[..n] == Prefixes(messages, lengths[..n]);
      PrefixRunIsFaithful(messages, lengths[..n]);
      RecordPrefixKeepsFaithful(messages, lengths[n], RecordAll(Prefixes(messages, lengths[..n])));
    }
  }

  function Elements<T>(s: seq<T>): set<T> { set x | x in s }

  lemma {:induction false} NoUserNoContextTurn(messages: seq<Message>)
    ensures LastUser(Strip(messages)) == None ==>
      ContextTurns(messages) == {} && forall k :: KeepContextOf(messages, k) == Strip(messages)
  {
    if messages != [] {
      var n := |messages| - 1;
      NoUserNoContextTurn(messages[..n]);
      var front := Strip(messages[..n]);
      if !IsContext(messages[n]) { assert (front + [messages[n]])[..|front|] == front; }
    }
  }

  lemma {:induction false} KeepNothing(messages: seq<Message>)
    ensures KeepContextOf(messages, {}) == Strip(messages)
  {
    if messages != [] { KeepNothing(messages[..|messages| - 1]); }
  }

  /** Restoring after any run of records, however long: the stripped transcript gets back exactly the
      context of the 64 turns recorded most recently. */
  lemma RestoreAfterAnyRun(messages: seq<Message>, lengths: seq<nat>)
    requires forall j :: 0 <= j < |lengths| ==> lengths[j] <= |messages|
    ensures var lists := Prefixes(messages, lengths);
      Restore(Strip(messages), RecordAll(lists))
      == KeepContextOf(messages, Elements(Newest(MAX_TURNS, Recency(Stored(lists)))))
  {
    var lists := Prefixes(messages, lengths);
    var payload := RecordAll(lists);
    RetainedAreNewest(lists);
    PrefixRunIsFaithful(messages, lengths);
    if payload == None {
      assert Elements(Ids(Turns(payload))) == {};
      KeepNothing(messages);
    } else if LastUser(Strip(messages)) == None {
      NoUserNoContextTurn(messages);
    } else {
      var p := payload.value;
      FaithfulRecordsMatch(messages, p);
      RecordsKeys(p.blocks, p.turns);
      RestoreStripped(messages, Records(p.blocks, p.turns));
      assert Records(p.blocks, p.turns).Keys == Elements(Ids(p.turns));
    }
  }

  /** Record then restore is the identity on transcripts: a conversation is recorded as it grows, prefix
      by prefix and as often as one likes; stripping all its context blocks and restoring then rebuilds
      it exactly, if and only if every turn with context is among the 64 recorded most recently. */
  lemma RecordThenRestore(messages: seq<Message>, lengths: seq<nat>)
    requires forall j :: 0 <= j < |lengths| ==> lengths[j] <= |messages|
    requires WellPlaced(messages)
    ensures var lists := Prefixes(messages, lengths);
      Restore(Strip(messages), RecordAll(lists)) == messages
      <==> ContextTurns(messages) <= Elements(Newest(MAX_TURNS, Recency(Stored(lists))))
  {
    RestoreAfterAnyRun(messages, lengths);
    KeepAllOrLess(messages, Elements(Newest(MAX_TURNS, Recency(Stored(Prefixes(messages, lengths))))));
  }

  // ----- at most 64 turns --------------------------------------------------------------

  lemma {:induction false} ContextTurnsContain(messages: seq<Message>, i: nat)
    requires i < |messages| && IsUser(messages[i]) && Trailing(messages[..i]) != []
    ensures IdentityAt(messages, i) in ContextTurns(messages)
  {
    var n := |messages| - 1;
    if i < n {
      PrefixIdentity(messages, n, i);
      ContextTurnsContain(messages[..n], i);
    }
  }

  lemma {:induction false} NoDupSize<T>(s: seq<T>, whole: set<T>)
    requires NoDup(s) && forall x :: x in s ==> x in whole
    ensures |s| <= |whole|
  {
    if s != [] {
      var n := |s| - 1;
      assert s[n] in s;
      NoDupSize(s[..n], whole - {s[n]});
    }
  }

  lemma {:induction false} StoredAreContextTurns(messages: seq<Message>, lengths: seq<nat>)
    requires forall j :: 0 <= j < |lengths| ==> lengths[j] <= |messages|
    ensures forall d :: d in Stored(Prefixes(messages, lengths)) ==> d in ContextTurns(messages)
  {
    if lengths != [] {
      var n := |lengths| - 1;
      assert Prefixes(messages, lengths)[..n] == Prefixes(messages, lengths[..n]);
      StoredAreContextTurns(messages, lengths[..n]);
      var last := LastUser(messages[..lengths[n]]);
      if last.Some? && Trailing(messages[..lengths[n]][..last.value]) != [] {
        PrefixIdentity(messages, lengths[n], last.value);
        ContextTurnsContain(messages, last.value);
      }
    }
  }

  /** With at most 64 turns that have context, all of them recorded at some time, the transcript comes back exactly. */
  lemma UpTo64TurnsRoundTrip(messages: seq<Message>, lengths: seq<nat>)
    requires forall j :: 0 <= j < |lengths| ==> lengths[j] <= |messages|
    requires WellPlaced(messages) && |ContextTurns(messages)| <= MAX_TURNS
    requires forall d :: d in ContextTurns(messages) ==> d in Stored(Prefixes(messages, lengths))
    ensures Restore(Strip(messages), RecordAll(Prefixes(messages, lengths))) == messages
  {
    var stored := Stored(Prefixes(messages, lengths));
    StoredAreContextTurns(messages, lengths);
    NoDupSize(Recency(stored), ContextTurns(messages));
    RecordThenRestore(messages, lengths);
  }
}
