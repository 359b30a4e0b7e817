/** Memory extraction and its cadence (memory_extractor.py): the sanitising
    parser for the model's JSON reply, the pattern-based quick facts, the
    conversation processor that decides when each runs, and the relevance
    query used for prompts.

    The regex engine, `json.loads` and the model call are parameters: `search`
    gives the captured groups of one pattern on one message, `decode` gives
    the decoded JSON value of a text (`None` for a decoding error) and
    `complete` gives the model's reply to the user messages it was shown
    (`None` when the backend raises). */
module MemoryExtractor {

  import opened Optional
  import opened Text
  import opened Seqs
  import opened MemoryStore
  import opened MemoryQueries

  // ---------------------------------------------------------------------------
  // Stores that only grow
  // ---------------------------------------------------------------------------

  /** `t` keeps every object of `s` at its position (records may change and
      new ones may follow). */
  predicate Grows(s: Store, t: Store) {
    |s.entries| <= |t.entries| && forall i :: 0 <= i < |s.entries| ==> t.entries[i].ref == s.entries[i].ref
  }

  lemma GrowsReadable(s: Store, t: Store, r: Ref)
    requires Grows(s, t) && Get(s, r).Some?
    ensures Get(t, r).Some?
  {
    var i := Find(s.entries, r).value;
    assert t.entries[i].ref == r;
  }

  /** Every handle in `rs` names a live object of `s`. */
  predicate Readable(s: Store, rs: seq<Ref>) {
    forall i :: 0 <= i < |rs| ==> Get(s, rs[i]).Some?
  }

  lemma GrowsKeepsReadable(s: Store, t: Store, rs: seq<Ref>)
    requires Grows(s, t) && Readable(s, rs)
    ensures Readable(t, rs)
  {
    forall i | 0 <= i < |rs| ensures Get(t, rs[i]).Some? {
      GrowsReadable(s, t, rs[i]);
    }
  }

  /** `add_memory` never drops or moves an object, what it returns is live,
      and it keeps one record per key. */
  lemma AddMemoryGrows(s: Store, memoryType: string, content: string, key: Option<string>,
                       value: Option<string>, importance: int, companionId: string, isShared: bool,
                       mint: nat -> string, now: nat)
    requires Valid(s)
    ensures Grows(s, AddMemory(s, memoryType, content, key, value, importance, companionId, isShared, mint, now).0)
    ensures Get(AddMemory(s, memoryType, content, key, value, importance, companionId, isShared, mint, now).0,
                AddMemory(s, memoryType, content, key, value, importance, companionId, isShared, mint, now).1)
            == if Truthy(key) && key.value in s.index
               then Some(Merged(Get(s, s.index[key.value]).value, content, value, importance).(lastAccessed := now))
               else Some(NewMemory(mint(s.nextRef), memoryType, content, key, value, importance, companionId, isShared, now))
    ensures Canonical(s) ==> Canonical(AddMemory(s, memoryType, content, key, value, importance, companionId, isShared, mint, now).0)
  {
    var r := AddMemory(s, memoryType, content, key, value, importance, companionId, isShared, mint, now);
    if !(Truthy(key) && key.value in s.index) {
      FindAppend(s.entries, r.0.entries[|s.entries|], r.1);
    }
    if Canonical(s) {
      AddMemoryCanonical(s, memoryType, content, key, value, importance, companionId, isShared, mint, now);
    }
  }

  // ---------------------------------------------------------------------------
  // Locating the JSON array in the reply
  // ---------------------------------------------------------------------------

  function FirstIndexOf(s: string, c: char): (r: Option<nat>)
    ensures r.Some? ==> r.value < |s| && s[r.value] == c && forall k :: 0 <= k < r.value ==> s[k] != c
    ensures r.None? ==> forall k :: 0 <= k < |s| ==> s[k] != c
  {
    if |s| == 0 then None
    else if s[0] == c then Some(0)
    else match FirstIndexOf(s[1..], c)
      case None => None
      case Some(k) => Some(k + 1)
  }

  function LastIndexOf(s: string, c: char): (r: Option<nat>)
    ensures r.Some? ==> r.value < |s| && s[r.value] == c && forall k :: r.value < k < |s| ==> s[k] != c
    ensures r.None? ==> forall k :: 0 <= k < |s| ==> s[k] != c
  {
    if |s| == 0 then None
    else if s[|s| - 1] == c then Some(|s| - 1)
    else LastIndexOf(s[..|s| - 1], c)
  }

  /** Where `\[.*\]` with DOTALL matches: the leftmost `[` that has a `]`
      after it, up to the rightmost `]` (the star is greedy). */
  function SpanBounds(reply: string): (r: Option<(nat, nat)>)
    ensures r.Some? <==> exists i, j :: 0 <= i < j < |reply| && reply[i] == '[' && reply[j] == ']'
    ensures r.Some? ==> r.value.0 < r.value.1 < |reply| && reply[r.value.0] == '[' && reply[r.value.1] == ']'
    ensures r.Some? ==> forall k :: 0 <= k < r.value.0 ==> reply[k] != '['
    ensures r.Some? ==> forall k :: r.value.1 < k < |reply| ==> reply[k] != ']'
  {
    match FirstIndexOf(reply, '[')
    case None => None
    case Some(i) =>
      match LastIndexOf(reply, ']')
      case None => None
      case Some(j) =>
        if i < j then Some((i, j)) else None
  }

  /** The matched text, brackets included. */
  function FindSpan(reply: string): (r: Option<string>)
    ensures r.Some? <==> SpanBounds(reply).Some?
    ensures r.Some? ==> |r.value| >= 2 && r.value[0] == '[' && r.value[|r.value| - 1] == ']'
  {
    match SpanBounds(reply)
    case None => None
    case Some((i, j)) => Some(reply[i..j + 1])
  }

  // ---------------------------------------------------------------------------
  // Sanitising the decoded items
  // ---------------------------------------------------------------------------

  /** A decoded JSON value. Numbers are integers here. */
  datatype JValue =
    | JNull
    | JBool(b: bool)
    | JInt(i: int)
    | JString(s: string)
    | JArray(items: seq<JValue>)
    | JObject(fields: map<string, JValue>)

  /** Python truthiness of a decoded value. */
  predicate JTruthy(v: JValue) {
    match v
    case JNull => false
    case JBool(b) => b
    case JInt(i) => i != 0
    case JString(s) => s != ""
    case JArray(items) => |items| > 0
    case JObject(fields) => |fields| > 0
  }

  /** `item.get(k, default)`. */
  function Field(fields: map<string, JValue>, k: string, default: JValue): JValue {
    if k in fields then fields[k] else default
  }

  /** One sanitised item: the arguments handed to `add_memory`. */
  datatype Extracted = Extracted(memoryType: string, content: string, key: Option<string>,
                                 value: Option<string>, importance: int)

  /** The bounds every sanitised item keeps. */
  predicate WellFormed(x: Extracted) {
    && IsMemoryType(x.memoryType)
    && |x.content| <= 500
    && (x.key.Some? ==> 0 < |x.key.value| <= 100)
    && (x.value.Some? ==> 0 < |x.value.value| <= 200)
    && 1 <= x.importance <= 5
  }

  /** The `type` field, falling back to `important_fact` when it is missing
      or not the value of a memory type. */
  function SanitizeType(v: JValue): (r: string)
    ensures IsMemoryType(r)
    ensures v.JString? && IsMemoryType(v.s) ==> r == v.s
    ensures !(v.JString? && IsMemoryType(v.s)) ==> r == "important_fact"
  {
    if v.JString? && IsMemoryType(v.s) then v.s else TypeName(ImportantFact)
  }

  /** `item.get(k, "")[:n] if item.get(k) else None`: `None` inside `Some`
      for a falsy field, the cut text for a text field, and the outer `None`
      for any other value. Slicing a number, a boolean or a dictionary raises;
      a list is not carried into a record here. */
  function OptionalText(v: JValue, n: nat): (r: Option<Option<string>>)
    requires n > 0
    ensures !JTruthy(v) ==> r == Some(None)
    ensures r.Some? && r.value.Some? ==>
              v.JString? && |r.value.value| <= |v.s| && r.value.value == v.s[..|r.value.value|]
    ensures r.Some? && r.value.Some? ==> 0 < |r.value.value| <= n
    ensures v.JString? && |v.s| > 0 && n > 0 ==> r.Some? && r.value.Some?
  {
    if !JTruthy(v) then Some(None)
    else if v.JString? then Some(Some(PyPrefix(v.s, n)))
    else None
  }

  /** `max(1, min(5, importance))`: `True` and `False` compare as 1 and 0 and
      both end at 1; a non-number raises. */
  function SanitizeImportance(v: JValue): (r: Option<int>)
    ensures r.Some? ==> 1 <= r.value <= 5
    ensures v.JInt? ==> r == Some(Clamp(v.i))
    ensures v.JBool? ==> r == Some(1)
    ensures r.None? <==> !(v.JInt? || v.JBool?)
  {
    match v
    case JInt(i) => Some(Clamp(i))
    case JBool(_) => Some(1)
    case _ => None
  }

  /** The dictionary one item becomes; `None` where Python raises. */
  function Sanitize(fields: map<string, JValue>): (r: Option<Extracted>)
    ensures r.Some? ==> WellFormed(r.value)
    ensures r.Some? && "importance" !in fields ==> r.value.importance == 2
    ensures r.Some? && !(("key" in fields) && JTruthy(fields["key"])) ==> r.value.key.None?
    ensures r.Some? && !(("value" in fields) && JTruthy(fields["value"])) ==> r.value.value.None?
  {
    var content := Field(fields, "content", JString(""));
    var key := OptionalText(Field(fields, "key", JNull), 100);
    var value := OptionalText(Field(fields, "value", JNull), 200);
    var importance := SanitizeImportance(Field(fields, "importance", JInt(2)));
    if content.JString? && key.Some? && value.Some? && importance.Some? then
      Some(Extracted(SanitizeType(Field(fields, "type", JString(TypeName(ImportantFact)))),
                     PyPrefix(content.s, 500), key.value, value.value, importance.value))
    else None
  }

  predicate IsObject(v: JValue) { v.JObject? }

  /** The dictionaries among the decoded items, in order. */
  function Objects(items: seq<JValue>): seq<JValue> {
    Filter(items, IsObject)
  }

  /** The loop over the decoded items: non-dictionaries are skipped, and one
      item that makes Python raise voids the whole result. */
  function SanitizeAll(items: seq<JValue>): (r: Option<seq<Extracted>>)
    ensures r.Some? <==> forall i :: 0 <= i < |Objects(items)| ==> Sanitize(Objects(items)[i].fields).Some?
    ensures r.Some? ==> |r.value| == |Objects(items)|
    ensures r.Some? ==> forall i :: 0 <= i < |r.value| ==> Sanitize(Objects(items)[i].fields) == Some(r.value[i])
  {
    if |items| == 0 then Some([])
    else
      var rest := SanitizeAll(items[1..]);
      ObjectsCons(items);
      if items[0].JObject? then
        match Sanitize(items[0].fields)
        case None => None
        case Some(x) => if rest.Some? then Some([x] + rest.value) else None
      else rest
  }

  lemma ObjectsCons(items: seq<JValue>)
    requires |items| > 0
    ensures Objects(items) == (if IsObject(items[0]) then [items[0]] else []) + Objects(items[1..])
  {
  }

  /** `_parse_extraction_response`: the sanitised items of the array found in
      the reply, or nothing when there is no array, it does not decode, or an
      item cannot be sanitised. */
  function ParseExtractionResponse(reply: string, decode: string -> Option<JValue>): (r: seq<Extracted>)
    ensures FindSpan(reply).None? ==> r == []
    ensures forall i :: 0 <= i < |r| ==> WellFormed(r[i])
    ensures |r| > 0 ==> FindSpan(reply).Some? && decode(FindSpan(reply).value).Some?
                        && decode(FindSpan(reply).value).value.JArray?
                        && |r| == |Objects(decode(FindSpan(reply).value).value.items)|
  {
    match FindSpan(reply)
    case None => []
    case Some(span) =>
      match decode(span)
      case Some(JArray(items)) => SanitizeAll(items).GetOr([])
      case _ => []
  }

  /** Prose around the array does not matter: two replies with the same span
      parse alike. */
  lemma ParseSeesOnlySpan(a: string, b: string, decode: string -> Option<JValue>)
    requires FindSpan(a) == FindSpan(b)
    ensures ParseExtractionResponse(a, decode) == ParseExtractionResponse(b, decode)
  {
  }

  /** A well-formed dictionary of strings and an integer importance comes
      through with its own type, content, key, value and importance. */
  lemma SanitizeKeepsGoodItem(t: MemoryType, content: string, key: string, value: string, importance: int)
    requires |content| <= 500 && 0 < |key| <= 100 && 0 < |value| <= 200 && 1 <= importance <= 5
    ensures Sanitize(map["type" := JString(TypeName(t)), "content" := JString(content), "key" := JString(key),
                         "value" := JString(value), "importance" := JInt(importance)])
            == Some(Extracted(TypeName(t), content, Some(key), Some(value), importance))
  {
    var fields := map["type" := JString(TypeName(t)), "content" := JString(content), "key" := JString(key),
                      "value" := JString(value), "importance" := JInt(importance)];
    assert Field(fields, "type", JString(TypeName(ImportantFact))) == JString(TypeName(t));
    assert ParseType(TypeName(t)) == Some(t) by {
      match t
      case PersonalInfo =>
      case Preference =>
      case LifeEvent =>
      case EmotionalState =>
      case Interest =>
      case Relationship =>
      case Goal =>
      case ImportantFact =>
      case ConversationTopic =>
    }
    assert PyPrefix(content, 500) == content;
    assert PyPrefix(key, 100) == key;
    assert PyPrefix(value, 200) == value;
  }

  /** A reply of bare commentary without a bracket pair parses to nothing,
      whatever the decoder would say. */
  lemma NoBracketsNoItems(reply: string, decode: string -> Option<JValue>)
    requires forall k :: 0 <= k < |reply| ==> reply[k] != ']'
    ensures ParseExtractionResponse(reply, decode) == []
  {
  }

  // ---------------------------------------------------------------------------
  // Committing extracted items
  // ---------------------------------------------------------------------------

  /** Every record `t` has beyond those of `s` is shared and belongs to
      `companionId`. */
  predicate NewShared(s: Store, t: Store, companionId: string) {
    forall i :: |s.entries| <= i < |t.entries| ==>
      t.entries[i].mem.isShared && t.entries[i].mem.companionId == companionId
  }

  /** Every record of `s` keeps its owner and sharing flag in `t`. */
  predicate KeepsOwners(s: Store, t: Store) {
    |s.entries| <= |t.entries| &&
    forall i :: 0 <= i < |s.entries| ==>
      t.entries[i].mem.isShared == s.entries[i].mem.isShared &&
      t.entries[i].mem.companionId == s.entries[i].mem.companionId
  }

  /** `add_memory` changes no owner, and a record it appends belongs to the
      companion it was called for. */
  lemma AddMemoryOwners(s: Store, x: Extracted, companionId: string, mint: nat -> string, now: nat)
    requires Valid(s)
    ensures KeepsOwners(s, AddMemory(s, x.memoryType, x.content, x.key, x.value, x.importance, companionId, true, mint, now).0)
    ensures NewShared(s, AddMemory(s, x.memoryType, x.content, x.key, x.value, x.importance, companionId, true, mint, now).0,
                      companionId)
  {
  }

  /** The `add_memory` loop of `extract_from_conversation`: every item
      committed in order, shared, under the current companion. */
  function CommitAll(s: Store, items: seq<Extracted>, companionId: string, mint: nat -> string, now: nat)
    : (r: (Store, seq<Ref>))
    requires Valid(s)
    ensures Valid(r.0) && Grows(s, r.0)
    ensures |r.1| == |items| && Readable(r.0, r.1)
    ensures Canonical(s) ==> Canonical(r.0)
    ensures KeepsOwners(s, r.0) && NewShared(s, r.0, companionId)
    decreases |items|
  {
    if |items| == 0 then (s, [])
    else
      var x := items[0];
      var a := AddMemory(s, x.memoryType, x.content, x.key, x.value, x.importance, companionId, true, mint, now);
      var rest := CommitAll(a.0, items[1..], companionId, mint, now);
      CommitOne(s, x, companionId, mint, now);
      CommitStep(s, a.0, a.1, rest.0, rest.1, companionId);
      (rest.0, [a.1] + rest.1)
  }

  /** Committing one item grows the store by at most a shared record of this
      companion, and what it returns is live. */
  lemma CommitOne(s: Store, x: Extracted, companionId: string, mint: nat -> string, now: nat)
    requires Valid(s)
    ensures var a := AddMemory(s, x.memoryType, x.content, x.key, x.value, x.importance, companionId, true, mint, now);
            && Grows(s, a.0) && Get(a.0, a.1).Some? && (Canonical(s) ==> Canonical(a.0))
            && KeepsOwners(s, a.0) && NewShared(s, a.0, companionId)
  {
    AddMemoryGrows(s, x.memoryType, x.content, x.key, x.value, x.importance, companionId, true, mint, now);
    AddMemoryOwners(s, x, companionId, mint, now);
  }

  /** One step of the loop followed by the rest keeps what the loop promises. */
  lemma CommitStep(s: Store, a: Store, r: Ref, t: Store, refs: seq<Ref>, companionId: string)
    requires Grows(s, a) && Get(a, r).Some? && (Canonical(s) ==> Canonical(a))
    requires KeepsOwners(s, a) && NewShared(s, a, companionId)
    requires Grows(a, t) && Readable(t, refs) && (Canonical(a) ==> Canonical(t))
    requires KeepsOwners(a, t) && NewShared(a, t, companionId)
    ensures Grows(s, t) && Readable(t, [r] + refs)
    ensures Canonical(s) ==> Canonical(t)
    ensures KeepsOwners(s, t) && NewShared(s, t, companionId)
  {
    GrowsReadable(a, t, r);
  }

  /** No later item of `items` names item `i`'s key, so nothing after it
      touches the record it was committed to. */
  predicate LastOfKey(items: seq<Extracted>, i: nat)
    requires i < |items|
  {
    !Truthy(items[i].key) || forall j :: i < j < |items| ==> items[j].key != items[i].key
  }

  /** The record `o` carries item `x`: its content, value and key, at least its
      importance, and for a keyless item also its type and exact importance. */
  predicate ItemHeld(o: Option<Memory>, x: Extracted) {
    && o.Some?
    && o.value.content == x.content && o.value.value == x.value && o.value.key == x.key
    && o.value.importance >= x.importance
    && (!Truthy(x.key) ==> o.value.memoryType == x.memoryType && o.value.importance == x.importance)
  }

  /** Each item that no later item overrides is what its returned memory holds. */
  predicate CommittedAs(t: Store, refs: seq<Ref>, items: seq<Extracted>) {
    |refs| == |items| &&
    forall i :: 0 <= i < |items| && LastOfKey(items, i) ==> ItemHeld(Get(t, refs[i]), items[i])
  }

  /** The memory `add_memory` returns carries the item it was given: a fresh
      record all of it, a merged one (whose key is the item's, by the index)
      its content and value and at least its importance. */
  lemma AddMemoryHeld(s: Store, x: Extracted, companionId: string, mint: nat -> string, now: nat)
    requires Valid(s)
    ensures var a := AddMemory(s, x.memoryType, x.content, x.key, x.value, x.importance, companionId, true, mint, now);
            ItemHeld(Get(a.0, a.1), x)
  {
    AddMemoryGrows(s, x.memoryType, x.content, x.key, x.value, x.importance, companionId, true, mint, now);
  }

  /** `add_memory` with a key other than a record's own leaves that record. */
  lemma AddMemoryKeepsOther(s: Store, x: Extracted, companionId: string, mint: nat -> string, now: nat, ref: Ref)
    requires Valid(s) && Get(s, ref).Some?
    requires !(Truthy(x.key) && x.key == Get(s, ref).value.key)
    ensures Get(AddMemory(s, x.memoryType, x.content, x.key, x.value, x.importance, companionId, true, mint, now).0, ref)
            == Get(s, ref)
  {
    var a := AddMemory(s, x.memoryType, x.content, x.key, x.value, x.importance, companionId, true, mint, now);
    if Truthy(x.key) && x.key.value in s.index {
      GetSameExcept(s, a.0, a.1, ref);
    } else {
      FindAppend(s.entries, a.0.entries[|s.entries|], ref);
    }
  }

  /** Committing items none of which names a record's key leaves that record. */
  lemma {:induction false} CommitAllKeeps(s: Store, items: seq<Extracted>, companionId: string, mint: nat -> string,
                                          now: nat, ref: Ref)
    requires Valid(s) && Get(s, ref).Some?
    requires forall j :: 0 <= j < |items| ==> !(Truthy(items[j].key) && items[j].key == Get(s, ref).value.key)
    ensures Get(CommitAll(s, items, companionId, mint, now).0, ref) == Get(s, ref)
    decreases |items|
  {
    if |items| > 0 {
      var x := items[0];
      var a := AddMemory(s, x.memoryType, x.content, x.key, x.value, x.importance, companionId, true, mint, now);
      AddMemoryKeepsOther(s, x, companionId, mint, now, ref);
      assert forall j :: 0 <= j < |items[1..]| ==> items[1..][j] == items[j + 1];
      CommitAllKeeps(a.0, items[1..], companionId, mint, now, ref);
    }
  }

  /** After the `add_memory` loop, every item that no later item overrides
      is held by the memory returned for it: its content, value and key, at
      least its importance, and for a keyless item also its type. */
  lemma {:induction false} CommitAllHolds(s: Store, items: seq<Extracted>, companionId: string, mint: nat -> string,
                                          now: nat)
    requires Valid(s)
    ensures CommittedAs(CommitAll(s, items, companionId, mint, now).0, CommitAll(s, items, companionId, mint, now).1,
                        items)
    decreases |items|
  {
    if |items| > 0 {
      var x := items[0];
      var a := AddMemory(s, x.memoryType, x.content, x.key, x.value, x.importance, companionId, true, mint, now);
      var rest := CommitAll(a.0, items[1..], companionId, mint, now);
      CommitAllHolds(a.0, items[1..], companionId, mint, now);
      AddMemoryHeld(s, x, companionId, mint, now);
      if LastOfKey(items, 0) {
        assert forall j :: 0 <= j < |items[1..]| ==> items[1..][j] == items[j + 1];
        CommitAllKeeps(a.0, items[1..], companionId, mint, now, a.1);
      }
      CommitHeldStep(items, Get(a.0, a.1), a.1, rest.0, rest.1);
    }
  }

  /** The first item and the rest of the loop together. */
  lemma CommitHeldStep(items: seq<Extracted>, first: Option<Memory>, ref: Ref, t: Store, refs: seq<Ref>)
    requires |items| > 0 && ItemHeld(first, items[0])
    requires LastOfKey(items, 0) ==> Get(t, ref) == first
    requires CommittedAs(t, refs, items[1..])
    ensures CommittedAs(t, [ref] + refs, items)
  {
  }

  // ---------------------------------------------------------------------------
  // extract_from_conversation
  // ---------------------------------------------------------------------------

  /** One conversation message. */
  datatype Message = Message(role: string, content: string)

  predicate FromUser(m: Message) { m.role == "user" }

  function Contents(ms: seq<Message>): (r: seq<string>)
    ensures |r| == |ms| && forall i :: 0 <= i < |ms| ==> r[i] == ms[i].content
  {
    seq(|ms|, i requires 0 <= i < |ms| => ms[i].content)
  }

  /** The contents of the user-role messages among the last ten, in order. */
  function UserMessages(messages: seq<Message>): (r: seq<string>)
    ensures |r| <= 10
    ensures forall i :: 0 <= i < |r| ==>
              exists k :: |messages| - 10 <= k < |messages| && 0 <= k && FromUser(messages[k]) && messages[k].content == r[i]
    ensures forall k :: |messages| - 10 <= k < |messages| && 0 <= k && FromUser(messages[k]) ==> messages[k].content in r
  {
    var recent := PySuffix(messages, 10);
    var mine := Filter(recent, FromUser);
    forall i | 0 <= i < |mine|
      ensures exists k :: |messages| - 10 <= k < |messages| && 0 <= k && FromUser(messages[k]) && messages[k] == mine[i]
    {
      var j :| 0 <= j < |recent| && recent[j] == mine[i];
      assert messages[|messages| - |recent| + j] == mine[i];
    }
    WindowUsersShown(messages, recent);
    Contents(mine)
  }

  /** `extract_from_conversation`: nothing without messages, without user
      messages among the last ten or without an answer from the model;
      otherwise the model is asked about those messages and every item of its
      parsed reply is committed. */
  function ExtractFromConversation(s: Store, messages: seq<Message>, companionId: string,
                                   complete: seq<string> -> Option<string>, decode: string -> Option<JValue>,
                                   mint: nat -> string, now: nat): (r: (Store, seq<Ref>))
    requires Valid(s)
    ensures Valid(r.0) && Grows(s, r.0) && Readable(r.0, r.1)
    ensures Canonical(s) ==> Canonical(r.0)
    ensures |UserMessages(messages)| == 0 ==> r == (s, [])
    ensures complete(UserMessages(messages)).None? ==> r == (s, [])
    ensures |UserMessages(messages)| > 0 && complete(UserMessages(messages)).Some? ==>
              CommittedAs(r.0, r.1, ParseExtractionResponse(complete(UserMessages(messages)).value, decode))
  {
    if |messages| == 0 then (s, [])
    else
      var users := UserMessages(messages);
      if |users| == 0 then (s, [])
      else
        match complete(users)
        case None => (s, [])
        case Some(reply) =>
          CommitAllHolds(s, ParseExtractionResponse(reply, decode), companionId, mint, now);
          CommitAll(s, ParseExtractionResponse(reply, decode), companionId, mint, now)
  }

  /** Deep extraction reads nothing but the contents of the user messages
      among the last ten. */
  lemma ExtractionSeesOnlyRecentUserMessages(s: Store, a: seq<Message>, b: seq<Message>, companionId: string,
                                             complete: seq<string> -> Option<string>,
                                             decode: string -> Option<JValue>, mint: nat -> string, now: nat)
    requires Valid(s)
    requires UserMessages(a) == UserMessages(b)
    ensures ExtractFromConversation(s, a, companionId, complete, decode, mint, now)
            == ExtractFromConversation(s, b, companionId, complete, decode, mint, now)
  {
    if |a| == 0 {
      assert |UserMessages(a)| == 0;
    }
    if |b| == 0 {
      assert |UserMessages(b)| == 0;
    }
  }

  /** An assistant message, however recent, is never shown to the model; it
      only pushes the oldest of the last ten out of view. */
  lemma AssistantMessagesIgnored(messages: seq<Message>, reply: string)
    ensures UserMessages(messages + [Message("assistant", reply)])
            == UserMessages(messages)[if |UserMessages(messages)| > 0 && |messages| >= 10 && FromUser(messages[|messages| - 10]) then 1 else 0..]
  {
    var m := Message("assistant", reply);
    var before := PySuffix(messages, 10);
    if |messages| >= 10 {
      assert PySuffix(messages + [m], 10) == before[1..] + [m];
      assert before[0] == messages[|messages| - 10];
      ShiftedWindow(before, m);
    } else {
      assert PySuffix(messages + [m], 10) == before + [m];
      FilterAppend(before, [m], FromUser);
    }
  }

  /** Every user message of the window shows up in the filtered contents. */
  lemma WindowUsersShown(messages: seq<Message>, recent: seq<Message>)
    requires |recent| <= |messages| && recent == messages[|messages| - |recent|..]
    requires |messages| < 10 ==> |recent| == |messages|
    requires |messages| >= 10 ==> |recent| == 10
    ensures forall k :: |messages| - 10 <= k < |messages| && 0 <= k && FromUser(messages[k]) ==>
              messages[k].content in Contents(Filter(recent, FromUser))
  {
    var mine := Filter(recent, FromUser);
    forall k | |messages| - 10 <= k < |messages| && 0 <= k && FromUser(messages[k])
      ensures messages[k].content in Contents(mine)
    {
      assert recent[k - (|messages| - |recent|)] == messages[k];
      var i :| 0 <= i < |mine| && mine[i] == messages[k];
      assert Contents(mine)[i] == messages[k].content;
    }
  }

  /** One more message of any role: the oldest of the last ten leaves view
      (its content leaves the list when it came from the user), and the new
      message's content joins at the end when it comes from the user. With
      `UserMessages([]) == []` this pins the list down for every history. */
  lemma UserMessagesAppend(messages: seq<Message>, m: Message)
    ensures UserMessages([]) == []
    ensures UserMessages(messages + [m])
            == UserMessages(messages)[if |messages| >= 10 && FromUser(messages[|messages| - 10]) then 1 else 0..]
               + (if FromUser(m) then [m.content] else [])
  {
    var before := PySuffix(messages, 10);
    if |messages| >= 10 {
      assert PySuffix(messages + [m], 10) == before[1..] + [m];
      assert before[0] == messages[|messages| - 10];
      WindowSlides(before, m);
    } else {
      assert PySuffix(messages + [m], 10) == before + [m];
      WindowGrows(before, m);
    }
  }

  /** A full window: the head leaves, the new message joins. */
  lemma WindowSlides(w: seq<Message>, m: Message)
    requires |w| > 0
    ensures Contents(Filter(w[1..] + [m], FromUser))
            == Contents(Filter(w, FromUser))[if FromUser(w[0]) then 1 else 0..] + (if FromUser(m) then [m.content] else [])
  {
    var head := Filter([w[0]], FromUser);
    var tail := Filter(w[1..], FromUser);
    var d := if FromUser(w[0]) then 1 else 0;
    assert |head| == d;
    assert w == [w[0]] + w[1..];
    FilterAppend([w[0]], w[1..], FromUser);
    ContentsAppend(head, tail);
    assert Contents(Filter(w, FromUser))[d..] == Contents(tail);
    WindowGrows(w[1..], m);
  }

  /** A window with room: the new message joins. */
  lemma WindowGrows(w: seq<Message>, m: Message)
    ensures Contents(Filter(w + [m], FromUser)) == Contents(Filter(w, FromUser)) + (if FromUser(m) then [m.content] else [])
  {
    FilterAppend(w, [m], FromUser);
    ContentsAppend(Filter(w, FromUser), Filter([m], FromUser));
  }

  /** Dropping the head of a window and adding a non-user message drops the
      head's content when it is a user message. */
  lemma ShiftedWindow(w: seq<Message>, m: Message)
    requires |w| > 0 && !FromUser(m)
    ensures Contents(Filter(w[1..] + [m], FromUser)) == Contents(Filter(w, FromUser))[if FromUser(w[0]) then 1 else 0..]
  {
    var head := Filter([w[0]], FromUser);
    var tail := Filter(w[1..], FromUser);
    FilterAppend(w[1..], [m], FromUser);
    assert Filter([m], FromUser) == [];
    assert tail + [] == tail;
    assert w == [w[0]] + w[1..];
    FilterAppend([w[0]], w[1..], FromUser);
    assert |head| == if FromUser(w[0]) then 1 else 0;
    ContentsAppend(head, tail);
  }

  lemma ContentsAppend(a: seq<Message>, b: seq<Message>)
    ensures Contents(a + b) == Contents(a) + Contents(b)
    ensures Contents(a + b)[|a|..] == Contents(b)
  {
  }

  // ---------------------------------------------------------------------------
  // extract_quick_facts
  // ---------------------------------------------------------------------------

  /** The groups captured by one pattern; `group2` only matters for the
      two-group pattern. */
  datatype Captured = Captured(group1: string, group2: string)

  /** One entry of the three pattern tables. */
  datatype Rule =
    | NameRule(pattern: string)
    | LocationRule(pattern: string)
    | PreferenceRule(pattern: string, relation: string, importance: int)

  /** The patterns in the order `extract_quick_facts` tries them. */
  const QuickRules: seq<Rule> := [
    NameRule("my name is (\\w+)"),
    NameRule("i'm called (\\w+)"),
    NameRule("call me (\\w+)"),
    NameRule("i am (\\w+) and"),
    LocationRule("i live in ([\\w\\s]+)"),
    LocationRule("i'm from ([\\w\\s]+)"),
    LocationRule("i stay in ([\\w\\s]+)"),
    PreferenceRule("i love (\\w+)", "loves", 3),
    PreferenceRule("i hate (\\w+)", "hates", 3),
    PreferenceRule("i really like (\\w+)", "likes", 2),
    PreferenceRule("i can't stand (\\w+)", "dislikes", 3),
    PreferenceRule("my favorite (\\w+) is (\\w+)", "favorite", 4)
  ]

  /** What a memory built from a match holds. */
  datatype Fact = Fact(memoryType: string, content: string, key: string, value: string, importance: int)

  /** The record a matched rule commits. A preference pattern that mentions
      "favorite" keys the record by the thing, the others by relation and value. */
  function RuleFact(rule: Rule, c: Captured): (f: Fact)
    ensures |f.key| > 0
  {
    match rule
    case NameRule(_) =>
      var name := Title(c.group1);
      Fact("personal_info", "User's name is " + name, "name", name, 5)
    case LocationRule(_) =>
      var location := Title(c.group1);
      Fact("personal_info", "User lives in " + location, "location", location, 3)
    case PreferenceRule(pattern, relation, importance) =>
      if Contains(pattern, "favorite") then FavoriteFact(c, importance) else RelationFact(relation, c, importance)
  }

  /** "my favorite X is Y": key `favorite_X`, value Y. */
  function FavoriteFact(c: Captured, importance: int): (f: Fact)
    ensures |f.key| > 0
  {
    Fact("preference", "User's favorite " + c.group1 + " is " + c.group2, "favorite_" + c.group1, c.group2, importance)
  }

  /** "I <relation> X": key `<relation>_X`, value X. */
  function RelationFact(relation: string, c: Captured, importance: int): (f: Fact)
    ensures |f.key| > 0
  {
    Fact("preference", "User " + relation + " " + c.group1, relation + "_" + c.group1, c.group1, importance)
  }

  /** The record holding `f`'s value, content and at least its importance. */
  predicate Holds(m: Memory, f: Fact) {
    && m.key == Some(f.key) && m.value == Some(f.value) && m.content == f.content
    && m.importance >= f.importance
  }

  /** `add_memory` for a fact, shared. Either way the key ends up indexed
      to a record that holds the fact. */
  function CommitFact(s: Store, f: Fact, companionId: string, mint: nat -> string, now: nat): (r: (Store, Ref))
    requires Valid(s) && |f.key| > 0
    ensures Valid(r.0) && Grows(s, r.0)
    ensures Canonical(s) ==> Canonical(r.0)
    ensures f.key in r.0.index && r.0.index[f.key] == r.1
    ensures Get(r.0, r.1).Some? && Holds(Get(r.0, r.1).value, f)
    ensures f.key !in s.index ==>
              |r.0.entries| == |s.entries| + 1 && r.0.entries[|s.entries|].ref == r.1
              && r.0.entries[|s.entries|].mem.memoryType == f.memoryType
              && r.0.entries[|s.entries|].mem.importance == f.importance
              && r.0.entries[|s.entries|].mem.isShared
    ensures f.key in s.index ==> |r.0.entries| == |s.entries| && r.1 == s.index[f.key]
  {
    var a := AddMemory(s, f.memoryType, f.content, Some(f.key), Some(f.value), f.importance, companionId, true, mint, now);
    AddMemoryGrows(s, f.memoryType, f.content, Some(f.key), Some(f.value), f.importance, companionId, true, mint, now);
    a
  }

  /** The value indexed under `key`, if any. */
  function KeyedValue(s: Store, key: string): Option<string> {
    if key in s.index && Get(s, s.index[key]).Some? then Get(s, s.index[key]).value.value else None
  }

  /** The lookup `get_memory_by_key` does leaves objects, keys and values
      where they were. */
  lemma LookupKeeps(s: Store, key: string, now: nat)
    requires Valid(s)
    ensures Grows(s, GetMemoryByKey(s, key, now).0)
    ensures Canonical(s) ==> Canonical(GetMemoryByKey(s, key, now).0)
    ensures forall k :: KeyedValue(GetMemoryByKey(s, key, now).0, k) == KeyedValue(s, k)
  {
    if key in s.index {
      var rs := {s.index[key]};
      TouchRefsValid(s, rs, now);
      forall k ensures KeyedValue(GetMemoryByKey(s, key, now).0, k) == KeyedValue(s, k) {
        if k in s.index {
          GetTouchRefs(s, rs, now, s.index[k]);
        }
      }
    }
  }

  /** One matched rule. A name is committed only when no `name` record holds
      that very value; the lookup touches the existing `name` record. */
  function CommitRule(s: Store, rule: Rule, c: Captured, companionId: string, mint: nat -> string, now: nat)
    : (r: (Store, Option<Ref>))
    requires Valid(s)
    ensures Valid(r.0) && Grows(s, r.0)
    ensures Canonical(s) ==> Canonical(r.0)
    ensures r.1.None? <==> rule.NameRule? && KeyedValue(s, "name") == Some(RuleFact(rule, c).value)
    ensures r.1.Some? ==> Get(r.0, r.1.value).Some? && Holds(Get(r.0, r.1.value).value, RuleFact(rule, c))
    ensures KeyedValue(r.0, RuleFact(rule, c).key) == Some(RuleFact(rule, c).value)
  {
    var f := RuleFact(rule, c);
    if rule.NameRule? then
      var got := GetMemoryByKey(s, "name", now);
      LookupKeeps(s, "name", now);
      if got.1.Some? && got.1.value.value == Some(f.value) then
        (got.0, None)
      else
        var a := CommitFact(got.0, f, companionId, mint, now);
        (a.0, Some(a.1))
    else
      var a := CommitFact(s, f, companionId, mint, now);
      (a.0, Some(a.1))
  }

  /** A name already on record is not written again, whatever other rules
      matched in between. */
  lemma NameGuardIdempotent(s: Store, p: string, q: string, c: Captured, d: Captured,
                            companionId: string, mint: nat -> string, now: nat, later: nat)
    requires Valid(s)
    requires Title(c.group1) == Title(d.group1)
    ensures CommitRule(CommitRule(s, NameRule(p), c, companionId, mint, now).0, NameRule(q), d, companionId, mint, later).1
            == None
  {
  }

  function OptionToSeq<T>(o: Option<T>): (r: seq<T>)
    ensures o.None? ==> r == []
    ensures o.Some? ==> r == [o.value]
  {
    if o.Some? then [o.value] else []
  }

  /** None of `rules` matches the message. */
  predicate NoMatch(rules: seq<Rule>, message: string, search: (string, string) -> Option<Captured>) {
    forall i :: 0 <= i < |rules| ==> search(rules[i].pattern, message).None?
  }

  /** The three loops of `extract_quick_facts` over `rules`, in order. */
  function ApplyRules(s: Store, rules: seq<Rule>, message: string, companionId: string,
                      search: (string, string) -> Option<Captured>, mint: nat -> string, now: nat)
    : (r: (Store, seq<Ref>))
    requires Valid(s)
    ensures Valid(r.0) && Grows(s, r.0) && Readable(r.0, r.1)
    ensures Canonical(s) ==> Canonical(r.0)
    ensures |r.1| <= |rules|
    ensures NoMatch(rules, message, search) ==> r == (s, [])
    decreases |rules|
  {
    if |rules| == 0 then (s, [])
    else
      var one := Step(s, rules[0], message, companionId, search, mint, now);
      var rest := ApplyRules(one.0, rules[1..], message, companionId, search, mint, now);
      GrowsKeepsReadable(one.0, rest.0, OptionToSeq(one.1));
      (rest.0, OptionToSeq(one.1) + rest.1)
  }

  /** One rule of the loop: committed when its pattern matches, skipped
      otherwise. */
  function Step(s: Store, rule: Rule, message: string, companionId: string,
                search: (string, string) -> Option<Captured>, mint: nat -> string, now: nat)
    : (r: (Store, Option<Ref>))
    requires Valid(s)
    ensures Valid(r.0) && Grows(s, r.0)
    ensures Canonical(s) ==> Canonical(r.0)
    ensures r.1.Some? ==> Get(r.0, r.1.value).Some?
    ensures search(rule.pattern, message).None? ==> r == (s, None)
    ensures search(rule.pattern, message).Some? && !rule.NameRule? ==> r.1.Some?
    ensures search(rule.pattern, message).Some? ==>
              KeyedValue(r.0, RuleFact(rule, search(rule.pattern, message).value).key)
              == Some(RuleFact(rule, search(rule.pattern, message).value).value)
  {
    match search(rule.pattern, message)
    case None => (s, None)
    case Some(c) => CommitRule(s, rule, c, companionId, mint, now)
  }

  /** The fact a rule yields on the message: one when its pattern matches. */
  function HitFacts(rule: Rule, message: string, search: (string, string) -> Option<Captured>): (fs: seq<Fact>)
    ensures |fs| <= 1
  {
    match search(rule.pattern, message)
    case None => []
    case Some(c) => [RuleFact(rule, c)]
  }

  /** `extract_quick_facts`: every rule of the table tried on the message. */
  function ExtractQuickFacts(s: Store, message: string, companionId: string,
                             search: (string, string) -> Option<Captured>, mint: nat -> string, now: nat)
    : (r: (Store, seq<Ref>))
    requires Valid(s)
    ensures Valid(r.0) && Grows(s, r.0) && Readable(r.0, r.1)
    ensures Canonical(s) ==> Canonical(r.0)
    ensures |r.1| <= 12
    ensures NoMatch(QuickRules, message, search) ==> r == (s, [])
    ensures |Facts(QuickRules, message, search)| - NameHits(QuickRules, message, search) <= |r.1|
                                                                                       <= |Facts(QuickRules, message, search)|
    ensures FactsHeldIn(r.0, Facts(QuickRules, message, search))
    ensures KeysKept(r.0, s, Facts(QuickRules, message, search))
  {
    ApplyRulesFacts(s, QuickRules, message, companionId, search, mint, now);
    ApplyRulesCount(s, QuickRules, message, companionId, search, mint, now);
    ApplyRules(s, QuickRules, message, companionId, search, mint, now)
  }

  /** The facts of the rules that match, in rule order. */
  function Facts(rules: seq<Rule>, message: string, search: (string, string) -> Option<Captured>): (fs: seq<Fact>)
    ensures |fs| <= |rules|
  {
    if |rules| == 0 then [] else HitFacts(rules[0], message, search) + Facts(rules[1..], message, search)
  }

  /** How many name rules match: the only matches the name guard can skip. */
  function NameHits(rules: seq<Rule>, message: string, search: (string, string) -> Option<Captured>): nat {
    if |rules| == 0 then 0
    else (if rules[0].NameRule? && search(rules[0].pattern, message).Some? then 1 else 0)
         + NameHits(rules[1..], message, search)
  }

  /** No later fact has the key of fact `i`. */
  predicate LastForKey(fs: seq<Fact>, i: nat) {
    forall j :: i < j < |fs| ==> fs[j].key != fs[i].key
  }

  predicate KeyOfAny(fs: seq<Fact>, k: string) {
    exists i :: 0 <= i < |fs| && fs[i].key == k
  }

  /** Every fact that no later fact overrides is the value `t` holds under
      its key. */
  predicate FactsHeldIn(t: Store, fs: seq<Fact>) {
    forall i :: 0 <= i < |fs| && LastForKey(fs, i) ==> KeyedValue(t, fs[i].key) == Some(fs[i].value)
  }

  /** Every key no fact names has the same value in `t` as in `s`. */
  ghost predicate KeysKept(t: Store, s: Store, fs: seq<Fact>) {
    forall k :: !KeyOfAny(fs, k) ==> KeyedValue(t, k) == KeyedValue(s, k)
  }

  /** After the rule loop, the last matching fact for each key is the value
      indexed under that key, and every key no matching rule produces keeps
      its value. */
  lemma {:induction false} ApplyRulesFacts(s: Store, rules: seq<Rule>, message: string, companionId: string,
                                           search: (string, string) -> Option<Captured>, mint: nat -> string, now: nat)
    requires Valid(s)
    ensures var r := ApplyRules(s, rules, message, companionId, search, mint, now);
            FactsHeldIn(r.0, Facts(rules, message, search)) && KeysKept(r.0, s, Facts(rules, message, search))
    decreases |rules|
  {
    if |rules| > 0 {
      var one := Step(s, rules[0], message, companionId, search, mint, now);
      ApplyRulesFacts(one.0, rules[1..], message, companionId, search, mint, now);
      ApplyRulesFactsStep(s, rules, message, companionId, search, mint, now);
    }
  }

  /** The induction step of `ApplyRulesFacts`: the claim for the tail of the
      rules, from the store the head rule left, gives the claim for all of
      them. */
  lemma ApplyRulesFactsStep(s: Store, rules: seq<Rule>, message: string, companionId: string,
                            search: (string, string) -> Option<Captured>, mint: nat -> string, now: nat)
    requires Valid(s) && |rules| > 0
    requires var one := Step(s, rules[0], message, companionId, search, mint, now);
             var rest := ApplyRules(one.0, rules[1..], message, companionId, search, mint, now);
             FactsHeldIn(rest.0, Facts(rules[1..], message, search))
             && KeysKept(rest.0, one.0, Facts(rules[1..], message, search))
    ensures var r := ApplyRules(s, rules, message, companionId, search, mint, now);
            FactsHeldIn(r.0, Facts(rules, message, search)) && KeysKept(r.0, s, Facts(rules, message, search))
  {
    var one := Step(s, rules[0], message, companionId, search, mint, now);
    var t := ApplyRules(one.0, rules[1..], message, companionId, search, mint, now).0;
    ApplyRulesCons(s, rules, message, companionId, search, mint, now);
    StepFacts(s, rules[0], message, companionId, search, mint, now);
    var head, tail := HitFacts(rules[0], message, search), Facts(rules[1..], message, search);
    assert Facts(rules, message, search) == head + tail;
    HeldCompose(t, one.0, head, tail);
    KeptCompose(t, one.0, s, head, tail);
  }

  /** One step holds its fact, if any, and keeps every other key. */
  lemma StepFacts(s: Store, rule: Rule, message: string, companionId: string,
                  search: (string, string) -> Option<Captured>, mint: nat -> string, now: nat)
    requires Valid(s)
    ensures var m := Step(s, rule, message, companionId, search, mint, now).0;
            var h := HitFacts(rule, message, search);
            (|h| == 1 ==> KeyedValue(m, h[0].key) == Some(h[0].value)) && KeysKept(m, s, h)
  {
    var m := Step(s, rule, message, companionId, search, mint, now).0;
    var h := HitFacts(rule, message, search);
    StepKeepsOthers(s, rule, message, companionId, search, mint, now);
    forall k | !KeyOfAny(h, k) ensures KeyedValue(m, k) == KeyedValue(s, k) {
      if |h| == 1 {
        assert h[0].key != k;
      }
    }
  }

  /** Held facts compose: the head fact held before the tail ran and not
      overridden by it still holds, and the tail's facts hold. */
  lemma HeldCompose(t: Store, m: Store, head: seq<Fact>, tail: seq<Fact>)
    requires |head| <= 1
    requires |head| == 1 ==> KeyedValue(m, head[0].key) == Some(head[0].value)
    requires FactsHeldIn(t, tail) && KeysKept(t, m, tail)
    ensures FactsHeldIn(t, head + tail)
  {
    if |head| == 1 {
      var h := head[0];
      assert head == [h];
      var fs := [h] + tail;
      forall i | 0 <= i < |fs| && LastForKey(fs, i) ensures KeyedValue(t, fs[i].key) == Some(fs[i].value) {
        if i == 0 {
          HeadLast(h, tail);
          assert KeyedValue(t, h.key) == KeyedValue(m, h.key);
        } else {
          TailLast(h, tail, i);
        }
      }
    } else {
      assert head + tail == tail;
    }
  }

  lemma HeadLast(h: Fact, tail: seq<Fact>)
    requires LastForKey([h] + tail, 0)
    ensures !KeyOfAny(tail, h.key)
  {
    forall j | 0 <= j < |tail| ensures tail[j].key != h.key {
      assert ([h] + tail)[j + 1] == tail[j];
    }
  }

  lemma TailLast(h: Fact, tail: seq<Fact>, i: nat)
    requires 1 <= i <= |tail| && LastForKey([h] + tail, i)
    ensures ([h] + tail)[i] == tail[i - 1] && LastForKey(tail, i - 1)
  {
    forall j | i - 1 < j < |tail| ensures tail[j].key != tail[i - 1].key {
      assert ([h] + tail)[j + 1] == tail[j];
    }
  }

  /** Kept keys compose: a key neither part names keeps its value across both. */
  lemma KeptCompose(t: Store, m: Store, s: Store, head: seq<Fact>, tail: seq<Fact>)
    requires KeysKept(m, s, head) && KeysKept(t, m, tail)
    ensures KeysKept(t, s, head + tail)
  {
    var fs := head + tail;
    forall k | !KeyOfAny(fs, k) ensures KeyedValue(t, k) == KeyedValue(s, k) {
      forall j | 0 <= j < |tail| ensures tail[j].key != k {
        assert fs[j + |head|] == tail[j];
      }
      forall j | 0 <= j < |head| ensures head[j].key != k {
        assert fs[j] == head[j];
      }
    }
  }

  /** The handles of one pass of the loop: at most the matching rules, and
      at least those that are not name rules. */
  lemma {:induction false} ApplyRulesCount(s: Store, rules: seq<Rule>, message: string, companionId: string,
                                           search: (string, string) -> Option<Captured>, mint: nat -> string, now: nat)
    requires Valid(s)
    ensures var r := ApplyRules(s, rules, message, companionId, search, mint, now);
            |Facts(rules, message, search)| - NameHits(rules, message, search) <= |r.1| <= |Facts(rules, message, search)|
    decreases |rules|
  {
    if |rules| > 0 {
      var one := Step(s, rules[0], message, companionId, search, mint, now);
      ApplyRulesCount(one.0, rules[1..], message, companionId, search, mint, now);
      assert |OptionToSeq(one.1)| <= |HitFacts(rules[0], message, search)|;
    }
  }

  /** One pass of the loop changes no key but the fact's own. */
  lemma StepKeepsOthers(s: Store, rule: Rule, message: string, companionId: string,
                        search: (string, string) -> Option<Captured>, mint: nat -> string, now: nat)
    requires Valid(s)
    ensures var h := HitFacts(rule, message, search);
            forall k :: (|h| == 0 || k != h[0].key) ==> KeyedValue(Step(s, rule, message, companionId, search, mint, now).0, k) == KeyedValue(s, k)
  {
    if search(rule.pattern, message).Some? {
      CommitRuleKeepsOthers(s, rule, search(rule.pattern, message).value, companionId, mint, now);
    }
  }

  /** Running the loop over `a + b` is running it over `a`, then over `b`
      from where `a` left the store; the handles come in that order. */
  lemma {:induction false} ApplyRulesAppend(s: Store, a: seq<Rule>, b: seq<Rule>, message: string, companionId: string,
                                            search: (string, string) -> Option<Captured>, mint: nat -> string, now: nat)
    requires Valid(s)
    ensures var first := ApplyRules(s, a, message, companionId, search, mint, now);
            var second := ApplyRules(first.0, b, message, companionId, search, mint, now);
            ApplyRules(s, a + b, message, companionId, search, mint, now) == (second.0, first.1 + second.1)
    decreases |a|
  {
    if |a| == 0 {
      ApplyRulesAppendNil(s, b, message, companionId, search, mint, now);
    } else {
      var one := Step(s, a[0], message, companionId, search, mint, now);
      ApplyRulesAppend(one.0, a[1..], b, message, companionId, search, mint, now);
      ApplyRulesAppendCons(s, a, b, message, companionId, search, mint, now);
    }
  }

  /** The base case of `ApplyRulesAppend`. */
  lemma ApplyRulesAppendNil(s: Store, b: seq<Rule>, message: string, companionId: string,
                            search: (string, string) -> Option<Captured>, mint: nat -> string, now: nat)
    requires Valid(s)
    ensures var second := ApplyRules(s, b, message, companionId, search, mint, now);
            ApplyRules(s, [] + b, message, companionId, search, mint, now) == (second.0, [] + second.1)
  {
    assert [] + b == b;
    var second := ApplyRules(s, b, message, companionId, search, mint, now);
    assert [] + second.1 == second.1;
  }

  /** The step of `ApplyRulesAppend`: the claim for the tail of `a` gives the
      claim for `a`. */
  lemma ApplyRulesAppendCons(s: Store, a: seq<Rule>, b: seq<Rule>, message: string, companionId: string,
                             search: (string, string) -> Option<Captured>, mint: nat -> string, now: nat)
    requires Valid(s) && |a| > 0
    requires var one := Step(s, a[0], message, companionId, search, mint, now);
             var mid := ApplyRules(one.0, a[1..], message, companionId, search, mint, now);
             var second := ApplyRules(mid.0, b, message, companionId, search, mint, now);
             ApplyRules(one.0, a[1..] + b, message, companionId, search, mint, now) == (second.0, mid.1 + second.1)
    ensures var first := ApplyRules(s, a, message, companionId, search, mint, now);
            var second := ApplyRules(first.0, b, message, companionId, search, mint, now);
            ApplyRules(s, a + b, message, companionId, search, mint, now) == (second.0, first.1 + second.1)
  {
    ConsAppend(a, b);
    var one := Step(s, a[0], message, companionId, search, mint, now);
    ApplyRulesCons(s, a, message, companionId, search, mint, now);
    ApplyRulesCons(s, a + b, message, companionId, search, mint, now);
    var mid := ApplyRules(one.0, a[1..], message, companionId, search, mint, now);
    var second := ApplyRules(mid.0, b, message, companionId, search, mint, now);
    PairsCompose(ApplyRules(s, a + b, message, companionId, search, mint, now),
                 ApplyRules(s, a, message, companionId, search, mint, now),
                 ApplyRules(one.0, a[1..] + b, message, companionId, search, mint, now),
                 OptionToSeq(one.1), mid, second);
  }

  /** The bookkeeping of `ApplyRulesAppendCons`, stated over plain pairs. */
  lemma PairsCompose<S, T>(whole: (S, seq<T>), first: (S, seq<T>), rest: (S, seq<T>),
                           head: seq<T>, mid: (S, seq<T>), second: (S, seq<T>))
    requires whole == (rest.0, head + rest.1)
    requires first == (mid.0, head + mid.1)
    requires rest == (second.0, mid.1 + second.1)
    ensures whole == (second.0, first.1 + second.1)
  {
    assert head + (mid.1 + second.1) == (head + mid.1) + second.1;
  }

  /** One unfolding of the rule loop: the head rule's step, then the rest. */
  lemma ApplyRulesCons(s: Store, rules: seq<Rule>, message: string, companionId: string,
                       search: (string, string) -> Option<Captured>, mint: nat -> string, now: nat)
    requires Valid(s) && |rules| > 0
    ensures var one := Step(s, rules[0], message, companionId, search, mint, now);
            var rest := ApplyRules(one.0, rules[1..], message, companionId, search, mint, now);
            ApplyRules(s, rules, message, companionId, search, mint, now) == (rest.0, OptionToSeq(one.1) + rest.1)
  {
  }

  /** A committed rule changes no other key's value. */
  lemma CommitRuleKeepsOthers(s: Store, rule: Rule, c: Captured, companionId: string, mint: nat -> string, now: nat)
    requires Valid(s)
    ensures forall k :: k != RuleFact(rule, c).key ==>
              KeyedValue(CommitRule(s, rule, c, companionId, mint, now).0, k) == KeyedValue(s, k)
  {
    var f := RuleFact(rule, c);
    if rule.NameRule? {
      var got := GetMemoryByKey(s, "name", now);
      LookupKeeps(s, "name", now);
      TouchRefsValid(s, if "name" in s.index then {s.index["name"]} else {}, now);
      if !(got.1.Some? && got.1.value.value == Some(f.value)) {
        CommitFactKeepsOthers(got.0, f, companionId, mint, now);
      }
    } else {
      CommitFactKeepsOthers(s, f, companionId, mint, now);
    }
  }

  /** `add_memory` for a fact changes no other key's value. */
  lemma CommitFactKeepsOthers(s: Store, f: Fact, companionId: string, mint: nat -> string, now: nat)
    requires Valid(s) && |f.key| > 0
    ensures forall k :: k != f.key ==> KeyedValue(CommitFact(s, f, companionId, mint, now).0, k) == KeyedValue(s, k)
  {
    var t := AddMemory(s, f.memoryType, f.content, Some(f.key), Some(f.value), f.importance, companionId, true, mint, now).0;
    assert t == CommitFact(s, f, companionId, mint, now).0;
    forall k | k != f.key ensures KeyedValue(t, k) == KeyedValue(s, k) {
      if f.key in s.index {
        UpdatedKeepsOthers(s, t, f.key, k);
      } else {
        AppendedKeepsOthers(s, t, f.key, k);
      }
    }
  }

  /** An in-place update of the record indexed under `key` keeps every other
      key's value. */
  lemma UpdatedKeepsOthers(s: Store, t: Store, key: string, k: string)
    requires Valid(s) && key in s.index && k != key && SameExcept(s, t, s.index[key])
    ensures KeyedValue(t, k) == KeyedValue(s, k)
  {
    if k in s.index {
      var rk, ref := s.index[k], s.index[key];
      assert rk != ref by {
        assert s.entries[Find(s.entries, rk).value].mem.key == Some(k);
        assert s.entries[Find(s.entries, ref).value].mem.key == Some(key);
      }
      GetSameExcept(s, t, ref, rk);
    }
  }

  /** Appending a record indexed under `key` keeps every other key's value. */
  lemma AppendedKeepsOthers(s: Store, t: Store, key: string, k: string)
    requires Valid(s) && k != key && |t.entries| == |s.entries| + 1 && t.entries[..|s.entries|] == s.entries
    requires t.index == s.index[key := t.entries[|s.entries|].ref]
    ensures KeyedValue(t, k) == KeyedValue(s, k)
  {
    if k in s.index {
      assert t.entries == s.entries + [t.entries[|s.entries|]];
      FindAppend(s.entries, t.entries[|s.entries|], s.index[k]);
    }
  }


  /** The preference table: relation keys with importances 3, 3, 2, 3 and the
      `favorite_<thing>` key with importance 4. */
  lemma PreferenceFacts(c: Captured)
    ensures RuleFact(QuickRules[7], c) == RelationFact("loves", c, 3)
    ensures RuleFact(QuickRules[8], c) == RelationFact("hates", c, 3)
    ensures RuleFact(QuickRules[9], c) == RelationFact("likes", c, 2)
    ensures RuleFact(QuickRules[10], c) == RelationFact("dislikes", c, 3)
    ensures RuleFact(QuickRules[11], c) == FavoriteFact(c, 4)
  {
    LovesFact(c);
    HatesFact(c);
    LikesFact(c);
    DislikesFact(c);
    FavoriteRuleFact(c);
  }

  lemma LovesFact(c: Captured)
    ensures RuleFact(QuickRules[7], c) == RelationFact("loves", c, 3)
  {
    NotFavorite(QuickRules[7].pattern);
  }

  lemma HatesFact(c: Captured)
    ensures RuleFact(QuickRules[8], c) == RelationFact("hates", c, 3)
  {
    NotFavorite(QuickRules[8].pattern);
  }

  lemma LikesFact(c: Captured)
    ensures RuleFact(QuickRules[9], c) == RelationFact("likes", c, 2)
  {
    NotFavorite(QuickRules[9].pattern);
  }

  lemma DislikesFact(c: Captured)
    ensures RuleFact(QuickRules[10], c) == RelationFact("dislikes", c, 3)
  {
    NotFavorite(QuickRules[10].pattern);
  }

  lemma FavoriteRuleFact(c: Captured)
    ensures RuleFact(QuickRules[11], c) == FavoriteFact(c, 4)
  {
    var p := QuickRules[11].pattern;
    assert StartsWith(p[3..], "favorite");
  }

  /** A pattern with no `f` does not contain "favorite". */
  lemma NotFavorite(p: string)
    requires forall k :: 0 <= k < |p| ==> p[k] != 'f'
    ensures !Contains(p, "favorite")
  {
    forall k | 0 <= k <= |p| ensures !StartsWith(p[k..], "favorite") {
      if k + 8 <= |p| {
        assert p[k..][..8][0] == p[k];
      }
    }
  }

  /** The first three letters of each preference rule's key. */
  function PreferenceTag(i: nat): string
    requires 7 <= i < 12
  {
    ["lov", "hat", "lik", "dis", "fav"][i - 7]
  }

  lemma PreferenceKeyTag(i: nat, c: Captured)
    requires 7 <= i < 12
    ensures |RuleFact(QuickRules[i], c).key| >= 3 && RuleFact(QuickRules[i], c).key[..3] == PreferenceTag(i)
  {
    if i == 7 { LovesTag(c); }
    else if i == 8 { HatesTag(c); }
    else if i == 9 { LikesTag(c); }
    else if i == 10 { DislikesTag(c); }
    else { FavoriteTag(c); }
  }

  /** A relation key starts with the relation's first three letters. */
  lemma RelationKeyTag(relation: string, c: Captured, importance: int)
    requires |relation| >= 3
    ensures |RelationFact(relation, c, importance).key| >= 3
    ensures RelationFact(relation, c, importance).key[..3] == relation[..3]
  {
  }

  lemma LovesTag(c: Captured)
    ensures |RuleFact(QuickRules[7], c).key| >= 3 && RuleFact(QuickRules[7], c).key[..3] == "lov"
  {
    LovesFact(c);
    RelationKeyTag("loves", c, 3);
    assert "loves"[..3] == "lov";
  }

  lemma HatesTag(c: Captured)
    ensures |RuleFact(QuickRules[8], c).key| >= 3 && RuleFact(QuickRules[8], c).key[..3] == "hat"
  {
    HatesFact(c);
    RelationKeyTag("hates", c, 3);
    assert "hates"[..3] == "hat";
  }

  lemma LikesTag(c: Captured)
    ensures |RuleFact(QuickRules[9], c).key| >= 3 && RuleFact(QuickRules[9], c).key[..3] == "lik"
  {
    LikesFact(c);
    RelationKeyTag("likes", c, 2);
    assert "likes"[..3] == "lik";
  }

  lemma DislikesTag(c: Captured)
    ensures |RuleFact(QuickRules[10], c).key| >= 3 && RuleFact(QuickRules[10], c).key[..3] == "dis"
  {
    DislikesFact(c);
    RelationKeyTag("dislikes", c, 3);
    assert "dislikes"[..3] == "dis";
  }

  lemma FavoriteTag(c: Captured)
    ensures |RuleFact(QuickRules[11], c).key| >= 3 && RuleFact(QuickRules[11], c).key[..3] == "fav"
  {
    FavoriteRuleFact(c);
  }

  /** Different preference rules never write the same key, so "I love X" and
      "I hate X" leave two records rather than one overwriting the other; and
      no preference key is `name` or `location`. */
  lemma PreferenceKeysDistinct(i: nat, j: nat, c: Captured, d: Captured)
    requires 7 <= i < j < 12
    ensures RuleFact(QuickRules[i], c).key != RuleFact(QuickRules[j], d).key
    ensures RuleFact(QuickRules[i], c).key != "name" && RuleFact(QuickRules[i], c).key != "location"
    ensures RuleFact(QuickRules[j], d).key != "name" && RuleFact(QuickRules[j], d).key != "location"
  {
    PreferenceKeyTag(i, c);
    PreferenceKeyTag(j, d);
    TaggedKeysDiffer(RuleFact(QuickRules[i], c).key, RuleFact(QuickRules[j], d).key, i, j);
  }

  /** Keys that start with two different preference tags differ, and neither
      is `name` or `location`. */
  lemma TaggedKeysDiffer(a: string, b: string, i: nat, j: nat)
    requires 7 <= i < j < 12
    requires |a| >= 3 && a[..3] == PreferenceTag(i)
    requires |b| >= 3 && b[..3] == PreferenceTag(j)
    ensures a != b
    ensures a != "name" && a != "location" && b != "name" && b != "location"
  {
    assert "name"[..3] == "nam" && "location"[..3] == "loc";
  }

  // ---------------------------------------------------------------------------
  // MemoryManager
  // ---------------------------------------------------------------------------

  /** `process_conversation` runs deep extraction on a positive multiple of ten. */
  predicate DeepExtractionDue(count: nat) {
    count % 10 == 0 && count > 0
  }

  /** `should_trigger_extraction`. */
  predicate ShouldTriggerExtraction(messageCount: int) {
    messageCount > 0 && messageCount % 5 == 0
  }

  /** The two cadences agree on multiples of ten and disagree exactly on the
      odd multiples of five. */
  lemma CadencesCompare(n: nat)
    ensures DeepExtractionDue(n) ==> ShouldTriggerExtraction(n)
    ensures ShouldTriggerExtraction(n) && !DeepExtractionDue(n) <==> n % 10 == 5
  {
  }

  /** The content of the last user-role message, if any. */
  function LastUserMessage(messages: seq<Message>): (r: Option<string>)
    ensures r.Some? <==> exists k :: 0 <= k < |messages| && FromUser(messages[k])
    ensures r.Some? ==> exists k :: 0 <= k < |messages| && FromUser(messages[k]) && messages[k].content == r.value
                          && forall j :: k < j < |messages| ==> !FromUser(messages[j])
  {
    if |messages| == 0 then None
    else if FromUser(messages[|messages| - 1]) then Some(messages[|messages| - 1].content)
    else
      var r := LastUserMessage(messages[..|messages| - 1]);
      assert forall k :: 0 <= k < |messages| - 1 ==> messages[..|messages| - 1][k] == messages[k];
      r
  }

  /** What `process_conversation` returns. */
  datatype Processed = Processed(newMemories: nat, totalMemories: nat, memories: seq<Ref>)

  /** The quick-fact pass on the last user message, when there is a
      non-empty one. */
  function QuickPass(s: Store, messages: seq<Message>, companionId: string,
                     search: (string, string) -> Option<Captured>, mint: nat -> string, now: nat)
    : (r: (Store, seq<Ref>))
    requires Valid(s)
    ensures Valid(r.0) && Grows(s, r.0) && Readable(r.0, r.1)
    ensures Canonical(s) ==> Canonical(r.0)
    ensures LastUserMessage(messages).None? ==> r == (s, [])
  {
    match LastUserMessage(messages)
    case Some(msg) =>
      if msg != "" then ExtractQuickFacts(s, msg, companionId, search, mint, now) else (s, [])
    case None => (s, [])
  }

  /** `process_conversation`: quick facts from the last user message, deep
      extraction when the message count is due, then the statistics call
      (which touches the important records). */
  function ProcessConversation(s: Store, messages: seq<Message>, companionId: string,
                               search: (string, string) -> Option<Captured>,
                               complete: seq<string> -> Option<string>, decode: string -> Option<JValue>,
                               mint: nat -> string, now: nat): (r: (Store, Processed))
    requires Valid(s)
    ensures Valid(r.0) && Grows(s, r.0)
    ensures Canonical(s) ==> Canonical(r.0)
    ensures r.1.newMemories == |r.1.memories| && Readable(r.0, r.1.memories)
    ensures r.1.totalMemories == |r.0.entries|
  {
    var quick := QuickPass(s, messages, companionId, search, mint, now);
    var deep := if DeepExtractionDue(|messages|)
                then ExtractFromConversation(quick.0, messages, companionId, complete, decode, mint, now)
                else (quick.0, []);
    var stats := GetStats(deep.0, now);
    StatsKeep(deep.0, now);
    PassesChain(s, quick.0, quick.1, deep.0, deep.1, stats.0);
    var all := quick.1 + deep.1;
    (stats.0, Processed(|all|, stats.1.totalMemories, all))
  }

  /** The statistics call only touches records. */
  lemma StatsKeep(s: Store, now: nat)
    requires Valid(s)
    ensures Grows(s, GetStats(s, now).0)
    ensures Canonical(s) ==> Canonical(GetStats(s, now).0)
    ensures GetStats(s, now).1.totalMemories == |GetStats(s, now).0.entries|
  {
    TouchRefsValid(s, RefSet(AtLeastIn(s.entries, 3)), now);
  }

  /** Two passes that each grow the store, then a call that only touches it:
      what either pass returned is still readable at the end. */
  lemma PassesChain(s: Store, a: Store, fromA: seq<Ref>, b: Store, fromB: seq<Ref>, c: Store)
    requires Grows(s, a) && Readable(a, fromA) && (Canonical(s) ==> Canonical(a))
    requires Grows(a, b) && Readable(b, fromB) && (Canonical(a) ==> Canonical(b))
    requires Grows(b, c) && (Canonical(b) ==> Canonical(c))
    ensures Grows(s, c) && Readable(c, fromA + fromB) && (Canonical(s) ==> Canonical(c))
  {
    GrowsKeepsReadable(a, b, fromA);
    GrowsKeepsReadable(b, c, fromA + fromB);
  }

  /** Off the ten-message cadence the model is never consulted: the result
      does not depend on its reply or on the decoder. */
  lemma OffCadenceIgnoresModel(s: Store, messages: seq<Message>, companionId: string,
                               search: (string, string) -> Option<Captured>,
                               complete1: seq<string> -> Option<string>, decode1: string -> Option<JValue>,
                               complete2: seq<string> -> Option<string>, decode2: string -> Option<JValue>,
                               mint: nat -> string, now: nat)
    requires Valid(s) && !DeepExtractionDue(|messages|)
    ensures ProcessConversation(s, messages, companionId, search, complete1, decode1, mint, now)
            == ProcessConversation(s, messages, companionId, search, complete2, decode2, mint, now)
  {
  }

  /** On the cadence, with user messages to show and a reply, the count of
      new memories reported is the quick pass's plus one per parsed item of
      the reply. */
  lemma OnCadenceCommitsReply(s: Store, messages: seq<Message>, companionId: string,
                              search: (string, string) -> Option<Captured>,
                              complete: seq<string> -> Option<string>, decode: string -> Option<JValue>,
                              mint: nat -> string, now: nat)
    requires Valid(s) && DeepExtractionDue(|messages|)
    requires |UserMessages(messages)| > 0 && complete(UserMessages(messages)).Some?
    ensures ProcessConversation(s, messages, companionId, search, complete, decode, mint, now).1.newMemories
            == |QuickPass(s, messages, companionId, search, mint, now).1|
               + |ParseExtractionResponse(complete(UserMessages(messages)).value, decode)|
  {
  }

  /** A conversation with no user message yields no new memory. */
  lemma NoUserMessageNothingNew(s: Store, messages: seq<Message>, companionId: string,
                                search: (string, string) -> Option<Captured>,
                                complete: seq<string> -> Option<string>, decode: string -> Option<JValue>,
                                mint: nat -> string, now: nat)
    requires Valid(s)
    requires forall k :: 0 <= k < |messages| ==> !FromUser(messages[k])
    ensures ProcessConversation(s, messages, companionId, search, complete, decode, mint, now).1.memories == []
  {
    assert LastUserMessage(messages).None?;
    NoUserMessagesShown(messages);
  }

  lemma NoUserMessagesShown(messages: seq<Message>)
    requires forall k :: 0 <= k < |messages| ==> !FromUser(messages[k])
    ensures UserMessages(messages) == []
  {
    var recent := PySuffix(messages, 10);
    assert forall i :: 0 <= i < |recent| ==> recent[i] == messages[|messages| - |recent| + i];
    FilterNone(recent, FromUser);
  }

  // ---------------------------------------------------------------------------
  // get_relevant_memories
  // ---------------------------------------------------------------------------

  /** The ids of the entries, in order. */
  function Ids(es: seq<Entry>): (r: seq<string>)
    ensures |r| == |es| && forall i :: 0 <= i < |es| ==> r[i] == es[i].mem.id
  {
    seq(|es|, i requires 0 <= i < |es| => es[i].mem.id)
  }

  /** No two entries share an id. */
  predicate DistinctIds(es: seq<Entry>) {
    Distinct(Ids(es))
  }

  /** The `for m in important` loop: each record whose id has not been seen
      yet, in order, its id then counting as seen. */
  function Unseen(seen: set<string>, important: seq<Entry>): (r: seq<Entry>)
    ensures |r| <= |important|
    ensures forall i :: 0 <= i < |r| ==> r[i] in important && r[i].mem.id !in seen
    ensures DistinctIds(r)
    decreases |important|
  {
    if |important| == 0 then []
    else if important[0].mem.id in seen then Unseen(seen, important[1..])
    else
      var rest := Unseen(seen + {important[0].mem.id}, important[1..]);
      var r := [important[0]] + rest;
      assert forall j :: 0 < j < |r| ==> r[j] == rest[j - 1];
      r
  }

  /** Every important record's id ends up seen: it was seen before, or the
      loop appended a record with that id. */
  lemma {:induction false} UnseenCovers(seen: set<string>, important: seq<Entry>)
    ensures forall i :: 0 <= i < |important| ==>
              important[i].mem.id in seen || important[i].mem.id in Ids(Unseen(seen, important))
    decreases |important|
  {
    if |important| > 0 {
      var id := important[0].mem.id;
      if id in seen {
        UnseenCovers(seen, important[1..]);
        assert forall i :: 0 < i < |important| ==> important[i] == important[1..][i - 1];
      } else {
        UnseenCovers(seen + {id}, important[1..]);
        var r := Unseen(seen, important);
        var rest := Unseen(seen + {id}, important[1..]);
        assert r == [important[0]] + rest;
        assert Ids(r) == [id] + Ids(rest);
        forall i | 0 <= i < |important|
          ensures important[i].mem.id in seen || important[i].mem.id in Ids(r)
        {
          if i > 0 {
            assert important[i] == important[1..][i - 1];
          }
        }
      }
    }
  }

  /** The loop keeps the order of its input, so a list sorted by importance
      yields a sorted list. */
  lemma {:induction false} UnseenSorted(seen: set<string>, important: seq<Entry>)
    requires SortedDesc(important, Importance)
    ensures SortedDesc(Unseen(seen, important), Importance)
    decreases |important|
  {
    if |important| > 0 {
      var id := important[0].mem.id;
      if id in seen {
        UnseenSorted(seen, important[1..]);
      } else {
        UnseenSorted(seen + {id}, important[1..]);
        var rest := Unseen(seen + {id}, important[1..]);
        forall j | 0 <= j < |rest| ensures Importance(important[0]) >= Importance(rest[j]) {
          var k :| 0 <= k < |important[1..]| && important[1..][k] == rest[j];
          assert important[1..][k] == important[k + 1];
        }
      }
    }
  }

  /** `{m.id for m in results}`. */
  function IdSet(es: seq<Entry>): (r: set<string>)
    ensures forall x :: x in r <==> x in Ids(es)
  {
    set x | x in Ids(es)
  }

  /** A search result is a live object, and stays readable after touching. */
  lemma SearchResultsReadable(s: Store, query: string, rs: set<Ref>, now: nat)
    requires Valid(s)
    ensures forall i :: 0 <= i < |SearchMemories(s, query)| ==>
              Get(TouchRefs(s, rs, now), SearchMemories(s, query)[i].ref).Some?
  {
    var found := SearchMemories(s, query);
    forall i | 0 <= i < |found| ensures Get(TouchRefs(s, rs, now), found[i].ref).Some? {
      var k :| 0 <= k < |s.entries| && s.entries[k] == found[i];
      GetListed(s, k);
      GetTouchRefs(s, rs, now, found[i].ref);
    }
  }

  /** Reading the hits afresh after the touch does not change their ids. */
  lemma HitsKeepIds(s: Store, found: seq<Entry>, rs: set<Ref>, now: nat, hits: seq<Entry>)
    requires Valid(s) && forall i :: 0 <= i < |found| ==> found[i] in s.entries
    requires |hits| == |found| && Refs(hits) == Refs(found) && Current(TouchRefs(s, rs, now), hits)
    ensures Ids(hits) == Ids(found)
  {
    forall i | 0 <= i < |found| ensures hits[i].mem.id == found[i].mem.id {
      var k :| 0 <= k < |s.entries| && s.entries[k] == found[i];
      GetListed(s, k);
      GetTouchRefs(s, rs, now, found[i].ref);
      assert Refs(hits)[i] == Refs(found)[i];
    }
  }

  /** The appended records are live, important and new by id. */
  lemma UnseenFacts(t: Store, important: seq<Entry>, seen: set<string>)
    requires Current(t, important) && SortedDesc(important, Importance)
    requires forall i :: 0 <= i < |important| ==> important[i].mem.importance >= 3
    ensures Current(t, Unseen(seen, important))
    ensures SortedDesc(Unseen(seen, important), Importance)
    ensures forall i :: 0 <= i < |Unseen(seen, important)| ==>
              Unseen(seen, important)[i].mem.importance >= 3 && Unseen(seen, important)[i].mem.id !in seen
  {
    var extra := Unseen(seen, important);
    UnseenSorted(seen, important);
    forall i | 0 <= i < |extra| ensures Get(t, extra[i].ref) == Some(extra[i].mem) && extra[i].mem.importance >= 3 {
      var j :| 0 <= j < |important| && important[j] == extra[i];
    }
  }

  /** Each record of importance 3 or more shows up, touched, in the list
      `get_important_memories` returns. */
  lemma ImportantListed(s: Store, now: nat, important: seq<Entry>, k: nat)
    requires multiset(important) == multiset(TouchEntries(AtLeastIn(s.entries, 3), now))
    requires k < |s.entries| && s.entries[k].mem.importance >= 3
    ensures exists j :: 0 <= j < |important| && important[j].mem.id == s.entries[k].mem.id
  {
    var e := s.entries[k];
    var hits := AtLeastIn(s.entries, 3);
    assert e in hits;
    var j :| 0 <= j < |hits| && hits[j] == e;
    assert TouchEntries(hits, now)[j] == TouchEntry(e, now);
    assert TouchEntry(e, now) in multiset(important);
    var i :| 0 <= i < |important| && important[i] == TouchEntry(e, now);
  }

  /** Ids of a concatenation. */
  lemma IdsAppend(a: seq<Entry>, b: seq<Entry>)
    ensures Ids(a + b) == Ids(a) + Ids(b)
  {
  }

  /** Two lists without repeated ids and without a shared id concatenate to
      one without repeated ids. */
  lemma DistinctIdsAppend(a: seq<Entry>, b: seq<Entry>)
    requires DistinctIds(a) && DistinctIds(b)
    requires forall i :: 0 <= i < |b| ==> b[i].mem.id !in Ids(a)
    ensures DistinctIds(a + b)
  {
    IdsAppend(a, b);
    var ids := Ids(a + b);
    forall i, j | 0 <= i < j < |ids| ensures ids[i] != ids[j] {
      if i < |a| && j >= |a| {
        assert ids[j] == b[j - |a|].mem.id;
        assert ids[i] == Ids(a)[i];
      }
    }
  }

  /** `get_relevant_memories`: the search hits, then the important records
      whose ids the hits do not have, cut to `limit`. Fetching the important
      records touches them, and the hits are returned as they are after that. */
  function GetRelevantMemories(s: Store, query: string, limit: int, now: nat): (r: (Store, seq<Entry>))
    requires Valid(s)
    ensures Valid(r.0)
    ensures r.0 == TouchRefs(s, RefSet(AtLeastIn(s.entries, 3)), now)
    ensures Current(r.0, r.1)
    ensures limit >= 0 ==> |r.1| <= limit
    ensures forall i :: 0 <= i < |r.1| && i < |SearchMemories(s, query)| ==>
              r.1[i].ref == SearchMemories(s, query)[i].ref
    ensures forall i :: |SearchMemories(s, query)| <= i < |r.1| ==>
              r.1[i].mem.importance >= 3 && r.1[i].mem.id !in Ids(SearchMemories(s, query))
    ensures forall i, j :: |SearchMemories(s, query)| <= i < j < |r.1| ==> r.1[i].mem.importance >= r.1[j].mem.importance
    ensures DistinctIds(SearchMemories(s, query)) ==> DistinctIds(r.1)
    ensures limit >= |SearchMemories(s, query)| + |AtLeastIn(s.entries, 3)| ==>
              forall k :: 0 <= k < |s.entries| && s.entries[k].mem.importance >= 3 ==> s.entries[k].mem.id in Ids(r.1)
  {
    var found := SearchMemories(s, query);
    var imp := GetImportantMemories(s, 3, now);
    SearchResultsReadable(s, query, RefSet(AtLeastIn(s.entries, 3)), now);
    var r := PyPrefix(Deref(imp.0, found) + Unseen(IdSet(found), imp.1), limit);
    HitsKeepIds(s, found, RefSet(AtLeastIn(s.entries, 3)), now, Deref(imp.0, found));
    RelevantResult(s, limit, now, found, imp.0, imp.1, r);
    (imp.0, r)
  }

  /** The hits, read afresh from `t`, are the search results by position and
      by id. */
  predicate HitsReady(found: seq<Entry>, t: Store, hits: seq<Entry>) {
    |hits| == |found| && Refs(hits) == Refs(found) && Ids(hits) == Ids(found) && Current(t, hits)
  }

  /** The appended records are live in `t`, sorted, important, new by id and
      pairwise distinct by id, and together with the hits they cover every
      important record of `s`. */
  predicate ExtraReady(s: Store, found: seq<Entry>, t: Store, extra: seq<Entry>) {
    && Current(t, extra) && SortedDesc(extra, Importance) && DistinctIds(extra)
    && (forall i :: 0 <= i < |extra| ==> extra[i].mem.importance >= 3 && extra[i].mem.id !in IdSet(found))
    && |extra| <= |AtLeastIn(s.entries, 3)|
    && (forall k :: 0 <= k < |s.entries| && s.entries[k].mem.importance >= 3 ==>
          s.entries[k].mem.id in Ids(found) || s.entries[k].mem.id in Ids(extra))
  }

  /** What `get_relevant_memories` promises of its list `r`. */
  predicate RelevantShape(s: Store, limit: int, found: seq<Entry>, t: Store, r: seq<Entry>) {
    && Current(t, r)
    && (limit >= 0 ==> |r| <= limit)
    && (forall i :: 0 <= i < |r| && i < |found| ==> r[i].ref == found[i].ref)
    && (forall i :: |found| <= i < |r| ==> r[i].mem.importance >= 3 && r[i].mem.id !in Ids(found))
    && (forall i, j :: |found| <= i < j < |r| ==> r[i].mem.importance >= r[j].mem.importance)
    && (DistinctIds(found) ==> DistinctIds(r))
    && (limit >= |found| + |AtLeastIn(s.entries, 3)| ==>
          forall k :: 0 <= k < |s.entries| && s.entries[k].mem.importance >= 3 ==> s.entries[k].mem.id in Ids(r))
  }

  /** The facts behind `GetRelevantMemories`, over its intermediate values. */
  lemma RelevantResult(s: Store, limit: int, now: nat, found: seq<Entry>, t: Store, important: seq<Entry>,
                       r: seq<Entry>)
    requires multiset(important) == multiset(TouchEntries(AtLeastIn(s.entries, 3), now))
    requires SortedDesc(important, Importance) && Current(t, important)
    requires forall i :: 0 <= i < |important| ==> important[i].mem.importance >= 3
    requires forall i :: 0 <= i < |found| ==> Get(t, found[i].ref).Some?
    requires Ids(Deref(t, found)) == Ids(found)
    requires r == PyPrefix(Deref(t, found) + Unseen(IdSet(found), important), limit)
    ensures RelevantShape(s, limit, found, t, r)
  {
    ExtraFacts(s, now, found, t, important);
    RelevantCore(s, limit, found, t, Deref(t, found), Unseen(IdSet(found), important), r);
  }

  /** The records the loop appends are ready to follow the hits. */
  lemma ExtraFacts(s: Store, now: nat, found: seq<Entry>, t: Store, important: seq<Entry>)
    requires multiset(important) == multiset(TouchEntries(AtLeastIn(s.entries, 3), now))
    requires SortedDesc(important, Importance) && Current(t, important)
    requires forall i :: 0 <= i < |important| ==> important[i].mem.importance >= 3
    ensures ExtraReady(s, found, t, Unseen(IdSet(found), important))
  {
    ImportantCovered(s, now, found, important);
    UnseenFacts(t, important, IdSet(found));
  }

  /** Every record of importance 3 or more is among the hits by id or among
      the records the loop appends; the loop appends at most that many. */
  lemma ImportantCovered(s: Store, now: nat, found: seq<Entry>, important: seq<Entry>)
    requires multiset(important) == multiset(TouchEntries(AtLeastIn(s.entries, 3), now))
    ensures |Unseen(IdSet(found), important)| <= |AtLeastIn(s.entries, 3)|
    ensures forall k :: 0 <= k < |s.entries| && s.entries[k].mem.importance >= 3 ==>
              s.entries[k].mem.id in Ids(found) || s.entries[k].mem.id in Ids(Unseen(IdSet(found), important))
  {
    assert |important| == |AtLeastIn(s.entries, 3)| by {
      assert |multiset(important)| == |multiset(TouchEntries(AtLeastIn(s.entries, 3), now))|;
    }
    UnseenCovers(IdSet(found), important);
    forall k | 0 <= k < |s.entries| && s.entries[k].mem.importance >= 3
      ensures s.entries[k].mem.id in Ids(found) || s.entries[k].mem.id in Ids(Unseen(IdSet(found), important))
    {
      ImportantListed(s, now, important, k);
    }
  }

  /** The cut list keeps the shape of `hits + extra`. */
  lemma RelevantCore(s: Store, limit: int, found: seq<Entry>, t: Store, hits: seq<Entry>, extra: seq<Entry>,
                     r: seq<Entry>)
    requires HitsReady(found, t, hits) && ExtraReady(s, found, t, extra)
    requires r == PyPrefix(hits + extra, limit)
    ensures RelevantShape(s, limit, found, t, r)
  {
    CutPositions(limit, found, t, hits, extra, r);
    CutDistinct(limit, found, hits, extra, r);
    if limit >= |found| + |AtLeastIn(s.entries, 3)| {
      assert r == hits + extra;
      IdsAppend(hits, extra);
    }
  }

  /** Position by position, the cut list holds the hits and then the
      appended records. */
  lemma CutPositions(limit: int, found: seq<Entry>, t: Store, hits: seq<Entry>, extra: seq<Entry>, r: seq<Entry>)
    requires HitsReady(found, t, hits)
    requires Current(t, extra) && SortedDesc(extra, Importance)
    requires forall i :: 0 <= i < |extra| ==> extra[i].mem.importance >= 3 && extra[i].mem.id !in IdSet(found)
    requires r == PyPrefix(hits + extra, limit)
    ensures Current(t, r)
    ensures limit >= 0 ==> |r| <= limit
    ensures forall i :: 0 <= i < |r| && i < |found| ==> r[i].ref == found[i].ref
    ensures forall i :: |found| <= i < |r| ==> r[i].mem.importance >= 3 && r[i].mem.id !in Ids(found)
    ensures forall i, j :: |found| <= i < j < |r| ==> r[i].mem.importance >= r[j].mem.importance
  {
    var all := hits + extra;
    assert forall i :: 0 <= i < |r| ==> r[i] == all[i];
    assert forall i :: |found| <= i < |all| ==> all[i] == extra[i - |found|];
    assert forall i :: 0 <= i < |found| ==> all[i].ref == found[i].ref by {
      assert forall i :: 0 <= i < |found| ==> Refs(hits)[i] == Refs(found)[i];
    }
  }

  /** Without repeated ids among the hits, the cut list has none either. */
  lemma CutDistinct(limit: int, found: seq<Entry>, hits: seq<Entry>, extra: seq<Entry>, r: seq<Entry>)
    requires Ids(hits) == Ids(found) && DistinctIds(extra)
    requires forall i :: 0 <= i < |extra| ==> extra[i].mem.id !in IdSet(found)
    requires r == PyPrefix(hits + extra, limit)
    ensures DistinctIds(found) ==> DistinctIds(r)
  {
    if DistinctIds(found) {
      DistinctIdsAppend(hits, extra);
      PyPrefixFacts(hits + extra, limit);
    }
  }

  /** What the Python cut `all[:limit]` keeps. */
  lemma PyPrefixFacts(all: seq<Entry>, limit: int)
    ensures DistinctIds(all) ==> DistinctIds(PyPrefix(all, limit))
    ensures limit >= |all| ==> PyPrefix(all, limit) == all
  {
    var r := PyPrefix(all, limit);
    assert Ids(r) == Ids(all)[..|r|];
  }

  // ---------------------------------------------------------------------------
  // Scenarios
  // ---------------------------------------------------------------------------

  /** With only the first rule matching, the loops commit that rule alone. */
  lemma ApplyFirstOnly(s: Store, rules: seq<Rule>, message: string, companionId: string,
                       search: (string, string) -> Option<Captured>, mint: nat -> string, now: nat, c: Captured)
    requires Valid(s) && |rules| > 0
    requires search(rules[0].pattern, message) == Some(c) && NoMatch(rules[1..], message, search)
    ensures ApplyRules(s, rules, message, companionId, search, mint, now)
            == (CommitRule(s, rules[0], c, companionId, mint, now).0,
                OptionToSeq(CommitRule(s, rules[0], c, companionId, mint, now).1))
  {
    var one := CommitRule(s, rules[0], c, companionId, mint, now);
    var rest := ApplyRules(one.0, rules[1..], message, companionId, search, mint, now);
    assert rest == (one.0, []);
    assert OptionToSeq(one.1) + rest.1 == OptionToSeq(one.1);
  }

  /** A pattern search that finds "Alice" with the first name pattern only. */
  function AliceSearch(pattern: string, message: string): Option<Captured> {
    if pattern == "my name is (\\w+)" then Some(Captured("Alice", "")) else None
  }

  lemma AliceOnlyFirst()
    ensures AliceSearch(QuickRules[0].pattern, "My name is Alice") == Some(Captured("Alice", ""))
    ensures NoMatch(QuickRules[1..], "My name is Alice", AliceSearch)
  {
  }

  lemma AliceFact()
    ensures RuleFact(QuickRules[0], Captured("Alice", "")) == Fact("personal_info", "User's name is Alice", "name", "Alice", 5)
  {
    assert Title("Alice") == "Alice";
  }

  /** "My name is Alice" on a store whose name is not already Alice commits
      one record holding `name: Alice` with importance 5; the same message
      again writes nothing. */
  lemma NameScenario(s: Store, companionId: string, mint: nat -> string, now: nat, later: nat)
    requires Valid(s) && KeyedValue(s, "name") != Some("Alice")
    ensures var first := ExtractQuickFacts(s, "My name is Alice", companionId, AliceSearch, mint, now);
            && |first.1| == 1
            && Get(first.0, first.1[0]).Some?
            && Holds(Get(first.0, first.1[0]).value, Fact("personal_info", "User's name is Alice", "name", "Alice", 5))
            && ExtractQuickFacts(first.0, "My name is Alice", companionId, AliceSearch, mint, later).1 == []
  {
    var c := Captured("Alice", "");
    AliceOnlyFirst();
    AliceFact();
    ApplyFirstOnly(s, QuickRules, "My name is Alice", companionId, AliceSearch, mint, now, c);
    var first := ExtractQuickFacts(s, "My name is Alice", companionId, AliceSearch, mint, now);
    ApplyFirstOnly(first.0, QuickRules, "My name is Alice", companionId, AliceSearch, mint, later, c);
  }

  /** The one dictionary of the array the model answers with in the hiking
      example. */
  const HikingObject: string :=
    "{\"type\":\"interest\",\"content\":\"Likes hiking\",\"key\":\"hobby\",\"value\":\"hiking\",\"importance\":3}"

  /** The array itself. */
  const HikingArray: string := "[" + HikingObject + "]"

  /** The dictionary that array decodes to. */
  const HikingItem: JValue :=
    JObject(map["type" := JString("interest"), "content" := JString("Likes hiking"), "key" := JString("hobby"),
                "value" := JString("hiking"), "importance" := JInt(3)])

  /** Prose without a bracket before an array: the span is the array. */
  lemma SpanAfterProse(prose: string, arr: string)
    requires forall k :: 0 <= k < |prose| ==> prose[k] != '['
    requires |arr| >= 2 && arr[0] == '[' && arr[|arr| - 1] == ']'
    ensures FindSpan(prose + arr) == Some(arr)
  {
    var reply := prose + arr;
    assert forall k :: 0 <= k < |prose| ==> reply[k] == prose[k];
    assert reply[|prose|] == '[';
    assert FirstIndexOf(reply, '[') == Some(|prose|);
    assert reply[|reply| - 1] == ']';
    assert LastIndexOf(reply, ']') == Some(|reply| - 1);
    assert SpanBounds(reply) == Some((|prose|, |reply| - 1));
    assert reply[|prose|..|reply| - 1 + 1] == arr;
  }

  /** One well-formed dictionary sanitises to one item. */
  lemma SanitizeOne(item: JValue, x: Extracted)
    requires item.JObject? && Sanitize(item.fields) == Some(x)
    ensures SanitizeAll([item]) == Some([x])
  {
    assert Objects([item]) == [item];
    assert [item][1..] == [];
    assert [x] + [] == [x];
  }

  lemma HikingSpan()
    ensures FindSpan("Sure! " + HikingArray) == Some(HikingArray)
  {
    assert |HikingArray| >= 2 && HikingArray[0] == '[' && HikingArray[|HikingArray| - 1] == ']';
    SpanAfterProse("Sure! ", HikingArray);
  }

  lemma HikingItemSanitizes()
    ensures Sanitize(HikingItem.fields) == Some(Extracted("interest", "Likes hiking", Some("hobby"), Some("hiking"), 3))
  {
    assert TypeName(Interest) == "interest";
    SanitizeKeepsGoodItem(Interest, "Likes hiking", "hobby", "hiking", 3);
  }

  /** The reply with prose before the array yields one item of type
      `interest`, given that the decoder decodes the array. */
  lemma HikingScenario(decode: string -> Option<JValue>)
    requires decode(HikingArray) == Some(JArray([HikingItem]))
    ensures ParseExtractionResponse("Sure! " + HikingArray, decode)
            == [Extracted("interest", "Likes hiking", Some("hobby"), Some("hiking"), 3)]
  {
    HikingSpan();
    HikingItemSanitizes();
    SanitizeOne(HikingItem, Extracted("interest", "Likes hiking", Some("hobby"), Some("hiking"), 3));
  }
}
