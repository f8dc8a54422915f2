/** The store of per-turn context blocks: recording them beside the user message they came with, and restoring them. */
module TurnContext {
  import opened PyText

  const MAX_TURNS := 64
  const START := "<GRINTA_TURN_CONTEXT"

  /** Whether the text is an application-owned context block. */
  predicate IsTurnContextText(text: string) { START <= LStrip(text) }

  lemma {:induction false} StripsTheSpace(space: string, rest: string)
    requires Blank(space) && rest != "" && !IsSpace(rest[0])
    ensures LStrip(space + rest) == rest
  {
    if space == "" {
      assert space + rest == rest;
    } else {
      assert (space + rest)[0] == space[0] && (space + rest)[1..] == space[1..] + rest;
      StripsTheSpace(space[1..], rest);
    }
  }

  lemma TagMakesContext(space: string, tag: string, rest: string)
    requires Blank(space) && tag == START
    ensures IsTurnContextText(space + (tag + rest))
  {
    assert tag[0] == '<';
    StripsTheSpace(space, tag + rest);
  }

  lemma ContextHasTag(text: string, tag: string) returns (space: string, rest: string)
    requires IsTurnContextText(text) && tag == START
    ensures Blank(space) && text == space + (tag + rest)
  {
    LStripProperties(text);
    var stripped := LStrip(text);
    space, rest := text[..|text| - |stripped|], stripped[|tag|..];
    assert stripped == tag + rest;
  }

  predicate SplitsAtTag(text: string, space: string, rest: string) {
    Blank(space) && text == space + ("<GRINTA_TURN_CONTEXT" + rest)
  }

  /** A text is a context block exactly when it starts, after any white space, with the opening tag. */
  lemma TurnContextTextMeaning(text: string)
    ensures IsTurnContextText(text) <==> exists space, rest :: SplitsAtTag(text, space, rest)
  {
    if IsTurnContextText(text) {
      var space, rest := ContextHasTag(text, START);
      assert SplitsAtTag(text, space, rest);
    }
    if space, rest :| SplitsAtTag(text, space, rest) { TagMakesContext(space, START, rest); }
  }

  datatype Role = User | System | OtherRole

  /** A message with text content, or something that is no message. */
  datatype Message = Chat(role: Role, text: string) | NotAMessage

  predicate IsUser(m: Message) { m.Chat? && m.role.User? }

  predicate IsContext(m: Message) { m.Chat? && m.role.System? && IsTurnContextText(m.text) }

  /** A SHA-256 digest: different texts have different digests. */
  datatype Digest = Sha(text: string)

  /** Which user message: its fingerprint, and how many with the same text came before. */
  datatype Identity = Identity(fingerprint: Digest, occurrence: nat)

  datatype Record = Record(identity: Identity, blockIds: seq<Digest>)

  datatype Payload = Payload(blocks: map<Digest, string>, turns: seq<Record>)

  const EMPTY := Payload(map[], [])

  // ----- identities --------------------------------------------------------------------

  function Occurrences(messages: seq<Message>, text: string): nat {
    if messages == [] then 0
    else
      var m := messages[|messages| - 1];
      Occurrences(messages[..|messages| - 1], text) + if IsUser(m) && m.text == text then 1 else 0
  }

  /** The identity of a user message with this text that follows `before`. */
  function IdentityAfter(before: seq<Message>, text: string): Identity {
    Identity(Sha(text), Occurrences(before, text))
  }

  function IdentityAt(messages: seq<Message>, i: nat): Identity
    requires i < |messages| && IsUser(messages[i])
  {
    IdentityAfter(messages[..i], messages[i].text)
  }

  function LastUser(messages: seq<Message>): (r: Option<nat>)
    ensures r.Some? ==> r.value < |messages| && IsUser(messages[r.value])
    ensures forall i :: 0 <= i < |messages| && IsUser(messages[i]) ==> r.Some? && i <= r.value
  {
    if messages == [] then None
    else
      var n := |messages| - 1;
      if IsUser(messages[n]) then Some(n)
      else
        var r := LastUser(messages[..n]);
        assert forall i :: 0 <= i < n ==> messages[i] == messages[..n][i];
        r
  }

  ghost predicate CountsOf(occurrences: map<Digest, nat>, messages: seq<Message>) {
    forall t: string :: Occurrences(messages, t) == if Sha(t) in occurrences then occurrences[Sha(t)] else 0
  }

  lemma CountOneMore(occurrences: map<Digest, nat>, messages: seq<Message>, m: Message)
    requires CountsOf(occurrences, messages)
    ensures !IsUser(m) ==> CountsOf(occurrences, messages + [m])
    ensures IsUser(m) ==> CountsOf(occurrences[Sha(m.text) := Occurrences(messages, m.text) + 1], messages + [m])
  {
    assert (messages + [m])[..|messages|] == messages;
  }

  lemma LastUserOneMore(messages: seq<Message>, i: nat)
    requires i < |messages|
    ensures messages[..i + 1] == messages[..i] + [messages[i]]
    ensures LastUser(messages[..i + 1]) == if IsUser(messages[i]) then Some(i) else LastUser(messages[..i])
  {
    assert messages[..i + 1][..i] == messages[..i];
  }

  method RecordLookup(messages: seq<Message>) returns (identities: map<nat, Identity>, lastUserIndex: Option<nat>)
    ensures forall i :: i in identities <==> 0 <= i < |messages| && IsUser(messages[i])
    ensures forall i :: i in identities ==> identities[i] == IdentityAt(messages, i)
    ensures lastUserIndex == LastUser(messages)
  {
    identities, lastUserIndex := map[], None;
    var occurrences: map<Digest, nat> := map[];
    for i := 0 to |messages|
      invariant forall j :: j in identities <==> 0 <= j < i && IsUser(messages[j])
      invariant forall j :: j in identities ==> identities[j] == IdentityAt(messages, j)
      invariant lastUserIndex == LastUser(messages[..i])
      invariant CountsOf(occurrences, messages[..i])
    {
      LastUserOneMore(messages, i);
      CountOneMore(occurrences, messages[..i], messages[i]);
      var m := messages[i];
      if IsUser(m) {
        var fingerprint := Sha(m.text);
        var occurrence := if fingerprint in occurrences then occurrences[fingerprint] else 0;
        occurrences := occurrences[fingerprint := occurrence + 1];
        identities := identities[i := Identity(fingerprint, occurrence)];
        lastUserIndex := Some(i);
      }
    }
    assert messages[..|messages|] == messages;
  }

  /** Identities are injective: two user messages of one transcript never share theirs. */
  lemma {:induction false} OccurrencesGrow(messages: seq<Message>, i: nat, j: nat, text: string)
    requires i <= j <= |messages|
    ensures Occurrences(messages[..i], text) <= Occurrences(messages[..j], text)
    ensures i < j && IsUser(messages[i]) && messages[i].text == text ==>
      Occurrences(messages[..i], text) < Occurrences(messages[..j], text)
    decreases j - i
  {
    if i < j {
      assert messages[..i + 1][..i] == messages[..i];
      OccurrencesGrow(messages, i + 1, j, text);
    }
  }

  lemma IdentitiesDiffer(messages: seq<Message>, i: nat, j: nat)
    requires i < |messages| && j < |messages| && IsUser(messages[i]) && IsUser(messages[j])
    ensures IdentityAt(messages, i) == IdentityAt(messages, j) <==> i == j
  {
    if i < j { OccurrencesGrow(messages, i, j, messages[i].text); }
    if j < i { OccurrencesGrow(messages, j, i, messages[j].text); }
  }

  // ----- recording ---------------------------------------------------------------------

  /** The texts of the context messages at the very end, in order. */
  function Trailing(messages: seq<Message>): seq<string> {
    if messages == [] || !IsContext(messages[|messages| - 1]) then []
    else Trailing(messages[..|messages| - 1]) + [messages[|messages| - 1].text]
  }

  function Digests(blocks: seq<string>): (ids: seq<Digest>)
    ensures |ids| == |blocks| && forall i :: 0 <= i < |ids| ==> ids[i] == Sha(blocks[i])
  {
    seq(|blocks|, i requires 0 <= i < |blocks| => Sha(blocks[i]))
  }

  function AddBlocks(pool: map<Digest, string>, blocks: seq<string>): map<Digest, string> {
    if blocks == [] then pool
    else AddBlocks(pool, blocks[..|blocks| - 1])[Sha(blocks[|blocks| - 1]) := blocks[|blocks| - 1]]
  }

  function OtherTurns(turns: seq<Record>, identity: Identity): seq<Record> {
    if turns == [] then []
    else
      var before, r := OtherTurns(turns[..|turns| - 1], identity), turns[|turns| - 1];
      if r.identity == identity then before else before + [r]
  }

  function NewestTurns(turns: seq<Record>): seq<Record> {
    if |turns| <= MAX_TURNS then turns else turns[|turns| - MAX_TURNS..]
  }

  function IdSet(ids: seq<Digest>): set<Digest> { set d | d in ids }

  function Referenced(turns: seq<Record>): set<Digest> {
    if turns == [] then {} else Referenced(turns[..|turns| - 1]) + IdSet(turns[|turns| - 1].blockIds)
  }

  /** What recording makes of the payload when the last user message is `identity` and `blocks` stand before it. */
  function Recorded(p: Payload, identity: Identity, blocks: seq<string>): Payload {
    var turns := NewestTurns(OtherTurns(p.turns, identity) + [Record(identity, Digests(blocks))]);
    var pool, referenced := AddBlocks(p.blocks, blocks), Referenced(turns);
    Payload(map d | d in pool && d in referenced :: pool[d], turns)
  }

  function RecordTurn(messages: seq<Message>, payload: Option<Payload>): Option<Payload> {
    match LastUser(messages)
    case None => payload
    case Some(u) =>
      if Trailing(messages[..u]) == [] then payload
      else Some(Recorded(if payload.Some? then payload.value else EMPTY, IdentityAt(messages, u),
                         Trailing(messages[..u])))
  }

  lemma TrailingStep(messages: seq<Message>, i: nat, blocks: seq<string>)
    requires 0 < i <= |messages| && IsContext(messages[i - 1])
    ensures Trailing(messages[..i]) + blocks == Trailing(messages[..i - 1]) + ([messages[i - 1].text] + blocks)
  {
    assert messages[..i][..i - 1] == messages[..i - 1];
    assert Trailing(messages[..i]) == Trailing(messages[..i - 1]) + [messages[i - 1].text];
  }

  method CollectBlocks(messages: seq<Message>, user: nat) returns (blocks: seq<string>)
    requires user <= |messages|
    ensures blocks == Trailing(messages[..user])
  {
    blocks := [];
    var index := user;
    while index > 0 && IsContext(messages[index - 1])
      invariant 0 <= index <= user
      invariant Trailing(messages[..user]) == Trailing(messages[..index]) + blocks
    {
      TrailingStep(messages, index, blocks);
      blocks := [messages[index - 1].text] + blocks;
      index := index - 1;
    }
    assert Trailing(messages[..index]) == [];
  }

  method PoolBlocks(pool: map<Digest, string>, blocks: seq<string>)
    returns (newPool: map<Digest, string>, blockIds: seq<Digest>)
    ensures newPool == AddBlocks(pool, blocks) && blockIds == Digests(blocks)
  {
    newPool, blockIds := pool, [];
    for i := 0 to |blocks|
      invariant newPool == AddBlocks(pool, blocks[..i]) && blockIds == Digests(blocks[..i])
    {
      assert blocks[..i + 1][..i] == blocks[..i];
      var blockId := Sha(blocks[i]);
      newPool := newPool[blockId := blocks[i]];
      blockIds := blockIds + [blockId];
    }
    assert blocks[..|blocks|] == blocks;
  }

  method ReferencedIds(turns: seq<Record>) returns (ids: set<Digest>)
    ensures ids == Referenced(turns)
  {
    ids := {};
    for i := 0 to |turns|
      invariant ids == Referenced(turns[..i])
    {
      assert turns[..i + 1][..i] == turns[..i];
      ids := ids + IdSet(turns[i].blockIds);
    }
    assert turns[..|turns|] == turns;
  }

  // ----- restoring ---------------------------------------------------------------------

  function KnownBlocks(pool: map<Digest, string>, ids: seq<Digest>): seq<string> {
    if ids == [] then []
    else
      var before, d := KnownBlocks(pool, ids[..|ids| - 1]), ids[|ids| - 1];
      if d in pool && IsTurnContextText(pool[d]) then before + [pool[d]] else before
  }

  /** The blocks to restore per identity; of two records for one identity the later counts. */
  function Records(pool: map<Digest, string>, turns: seq<Record>): map<Identity, seq<string>> {
    if turns == [] then map[]
    else
      var r := turns[|turns| - 1];
      Records(pool, turns[..|turns| - 1])[r.identity := KnownBlocks(pool, r.blockIds)]
  }

  function PopContext(messages: seq<Message>): seq<Message> {
    if messages == [] || !IsContext(messages[|messages| - 1]) then messages
    else PopContext(messages[..|messages| - 1])
  }

  function AsMessages(blocks: seq<string>): (r: seq<Message>)
    ensures |r| == |blocks| && forall i :: 0 <= i < |r| ==> r[i] == Chat(System, blocks[i])
  {
    seq(|blocks|, i requires 0 <= i < |blocks| => Chat(System, blocks[i]))
  }

  /** Each recorded user message gets its blocks, in place of any context that stood before it. */
  function RestoreWith(messages: seq<Message>, records: map<Identity, seq<string>>): seq<Message> {
    if messages == [] then []
    else
      var n := |messages| - 1;
      var front, m := RestoreWith(messages[..n], records), messages[n];
      if IsUser(m) && IdentityAfter(messages[..n], m.text) in records then
        PopContext(front) + AsMessages(records[IdentityAfter(messages[..n], m.text)]) + [m]
      else front + [m]
  }

  function Restore(messages: seq<Message>, payload: Option<Payload>): seq<Message> {
    if payload == None || LastUser(messages) == None then messages
    else RestoreWith(messages, Records(payload.value.blocks, payload.value.turns))
  }

  predicate CurrentTurnKnown(messages: seq<Message>, payload: Option<Payload>) {
    && payload.Some? && LastUser(messages).Some?
    && IdentityAt(messages, LastUser(messages).value) in Records(payload.value.blocks, payload.value.turns)
  }

  method ReadRecords(pool: map<Digest, string>, turns: seq<Record>) returns (records: map<Identity, seq<string>>)
    ensures records == Records(pool, turns)
  {
    records := map[];
    for i := 0 to |turns|
      invariant records == Records(pool, turns[..i])
    {
      assert turns[..i + 1][..i] == turns[..i];
      records := records[turns[i].identity := KnownBlocks(pool, turns[i].blockIds)];
    }
    assert turns[..|turns|] == turns;
  }

  method RestoreMessages(messages: seq<Message>, identities: map<nat, Identity>, records: map<Identity, seq<string>>)
    returns (restored: seq<Message>)
    requires forall i :: i in identities <==> 0 <= i < |messages| && IsUser(messages[i])
    requires forall i :: i in identities ==> identities[i] == IdentityAt(messages, i)
    ensures restored == RestoreWith(messages, records)
  {
    restored := [];
    for i := 0 to |messages|
      invariant restored == RestoreWith(messages[..i], records)
    {
      assert messages[..i + 1][..i] == messages[..i];
      if i in identities && identities[i] in records {
        while restored != [] && IsContext(restored[|restored| - 1])
          invariant PopContext(restored) == PopContext(RestoreWith(messages[..i], records))
          decreases |restored|
        {
          restored := restored[..|restored| - 1];
        }
        restored := restored + AsMessages(records[identities[i]]);
      }
      restored := restored + [messages[i]];
    }
    assert messages[..|messages|] == messages;
  }

  /** The part of the agent's state that holds the turn contexts. */
  class PlannerState {
    var turnContext: Option<Payload>

    method RestorePriorTurnContext(messages: seq<Message>) returns (restored: seq<Message>, currentTurnRestored: bool)
      ensures restored == Restore(messages, turnContext)
      ensures currentTurnRestored <==> CurrentTurnKnown(messages, turnContext)
    {
      if turnContext == None { return messages, false; }
      var payload := turnContext.value;
      var records := ReadRecords(payload.blocks, payload.turns);
      var identities, lastUserIndex := RecordLookup(messages);
      if lastUserIndex == None { return messages, false; }
      currentTurnRestored := identities[lastUserIndex.value] in records;
      restored := RestoreMessages(messages, identities, records);
    }

    method RecordCurrentTurnContext(messages: seq<Message>)
      modifies this
      ensures turnContext == RecordTurn(messages, old(turnContext))
    {
      var identities, lastUserIndex := RecordLookup(messages);
      if lastUserIndex == None { return; }
      var blocks := CollectBlocks(messages, lastUserIndex.value);
      if blocks == [] { return; }
      var identity := identities[lastUserIndex.value];
      var payload := if turnContext.Some? then turnContext.value else EMPTY;
      var pool, blockIds := PoolBlocks(payload.blocks, blocks);
      var turns := OtherTurns(payload.turns, identity) + [Record(identity, blockIds)];
      turns := NewestTurns(turns);
      var referenced := ReferencedIds(turns);
      turnContext := Some(Payload(map d | d in pool && d in referenced :: pool[d], turns));
    }
  }
}
