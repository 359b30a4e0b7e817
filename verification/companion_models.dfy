/** The companion data models (companion_data/models.py): the companion
    record with its display fallbacks, the conversation log with its context
    window, and the manager's two insertion-ordered dictionaries of preset and
    custom companions. Reading and writing the JSON files is left out; the
    dictionaries are the state those files hold. */
module Companions {

  import opened Optional
  import opened Text
  import opened Seqs

  // ---------------------------------------------------------------------------
  // Insertion-ordered dictionaries keyed by string
  // ---------------------------------------------------------------------------

  datatype Item<V> = Item(key: string, val: V)

  /** A Python `dict` with string keys: its items in insertion order. */
  type Dict<V> = seq<Item<V>>

  predicate KeysDistinct<V>(d: Dict<V>) {
    forall i, j :: 0 <= i < j < |d| ==> d[i].key != d[j].key
  }

  predicate HasKey<V>(d: Dict<V>, k: string) {
    exists i :: 0 <= i < |d| && d[i].key == k
  }

  /** `d.get(k)`. */
  function Lookup<V(==)>(d: Dict<V>, k: string): (r: Option<V>)
    ensures r.Some? <==> HasKey(d, k)
    ensures r.Some? ==> Item(k, r.value) in d
  {
    if |d| == 0 then None
    else if d[0].key == k then Some(d[0].val)
    else
      assert HasKey(d, k) ==> HasKey(d[1..], k) by {
        if HasKey(d, k) {
          var i :| 0 <= i < |d| && d[i].key == k;
          assert d[1..][i - 1].key == k;
        }
      }
      Lookup(d[1..], k)
  }

  /** With distinct keys, looking a key up finds exactly the item stored
      under it. */
  lemma LookupIn<V>(d: Dict<V>, k: string, v: V)
    requires KeysDistinct(d)
    ensures Lookup(d, k) == Some(v) <==> Item(k, v) in d
  {
    if Item(k, v) in d {
      var i :| 0 <= i < |d| && d[i] == Item(k, v);
      var r := Lookup(d, k);
      var j :| 0 <= j < |d| && d[j] == Item(k, r.value);
      assert i == j;
    }
  }

  /** Two dictionaries with distinct keys that hold the same items answer
      every lookup alike. */
  lemma SameItemsSameLookups<V>(d: Dict<V>, e: Dict<V>, k: string)
    requires KeysDistinct(d) && KeysDistinct(e)
    requires forall v :: Item(k, v) in d <==> Item(k, v) in e
    ensures Lookup(d, k) == Lookup(e, k)
  {
    var r := Lookup(d, k);
    if r.Some? {
      LookupIn(e, k, r.value);
    } else {
      var t := Lookup(e, k);
      if t.Some? {
        LookupIn(d, k, t.value);
      }
    }
  }

  /** `d[k] = v`: an existing key keeps its position and takes the new value;
      a new key goes to the end. */
  function Put<V>(d: Dict<V>, k: string, v: V): (r: Dict<V>)
    requires KeysDistinct(d)
    ensures KeysDistinct(r)
    ensures Lookup(r, k) == Some(v)
    ensures forall j :: j != k ==> Lookup(r, j) == Lookup(d, j)
    ensures HasKey(d, k) ==> |r| == |d| && forall i :: 0 <= i < |d| ==> r[i].key == d[i].key
    ensures !HasKey(d, k) ==> r == d + [Item(k, v)]
  {
    var r := if HasKey(d, k) then seq(|d|, i requires 0 <= i < |d| => if d[i].key == k then Item(k, v) else d[i])
             else d + [Item(k, v)];
    PutFacts(d, k, v, r);
    r
  }

  lemma PutFacts<V>(d: Dict<V>, k: string, v: V, r: Dict<V>)
    requires KeysDistinct(d)
    requires HasKey(d, k) ==> r == seq(|d|, i requires 0 <= i < |d| => if d[i].key == k then Item(k, v) else d[i])
    requires !HasKey(d, k) ==> r == d + [Item(k, v)]
    ensures KeysDistinct(r)
    ensures Lookup(r, k) == Some(v)
    ensures forall j :: j != k ==> Lookup(r, j) == Lookup(d, j)
  {
    if HasKey(d, k) {
      ReplaceItems(d, k, v, r);
    } else {
      AppendItem(d, k, v, r);
    }
    LookupIn(r, k, v);
    forall j | j != k ensures Lookup(r, j) == Lookup(d, j) {
      SameItemsSameLookups(r, d, j);
    }
  }

  /** Overwriting the value under a present key keeps the keys and every
      other item. */
  lemma ReplaceItems<V>(d: Dict<V>, k: string, v: V, r: Dict<V>)
    requires KeysDistinct(d) && HasKey(d, k)
    requires r == seq(|d|, i requires 0 <= i < |d| => if d[i].key == k then Item(k, v) else d[i])
    ensures KeysDistinct(r) && Item(k, v) in r
    ensures forall j, w :: j != k ==> (Item(j, w) in r <==> Item(j, w) in d)
  {
    var i :| 0 <= i < |d| && d[i].key == k;
    assert r[i] == Item(k, v);
    forall j, w | j != k && Item(j, w) in d ensures Item(j, w) in r {
      var n :| 0 <= n < |d| && d[n] == Item(j, w);
      assert r[n] == d[n];
    }
  }

  /** Appending an item under a new key keeps the keys apart and every other
      item. */
  lemma AppendItem<V>(d: Dict<V>, k: string, v: V, r: Dict<V>)
    requires KeysDistinct(d) && !HasKey(d, k)
    requires r == d + [Item(k, v)]
    ensures KeysDistinct(r) && Item(k, v) in r
    ensures forall j, w :: j != k ==> (Item(j, w) in r <==> Item(j, w) in d)
  {
    assert r[|d|] == Item(k, v);
  }

  /** `del d[k]`: the item under `k` goes, the others keep their order. */
  function Remove<V(==)>(d: Dict<V>, k: string): (r: Dict<V>)
    requires KeysDistinct(d)
    ensures |r| <= |d|
    ensures KeysDistinct(r)
    ensures Lookup(r, k) == None
    ensures forall j :: j != k ==> Lookup(r, j) == Lookup(d, j)
    ensures !HasKey(d, k) ==> r == d
  {
    var r := Filter(d, (x: Item<V>) => x.key != k);
    RemoveFacts(d, k, r);
    r
  }

  lemma RemoveFacts<V>(d: Dict<V>, k: string, r: Dict<V>)
    requires KeysDistinct(d)
    requires r == Filter(d, (x: Item<V>) => x.key != k)
    ensures KeysDistinct(r)
    ensures Lookup(r, k) == None
    ensures forall j :: j != k ==> Lookup(r, j) == Lookup(d, j)
    ensures !HasKey(d, k) ==> r == d
  {
    FilterKeysDistinct(d, (x: Item<V>) => x.key != k);
    forall j | j != k ensures Lookup(r, j) == Lookup(d, j) {
      SameItemsSameLookups(r, d, j);
    }
    if !HasKey(d, k) {
      FilterAll(d, (x: Item<V>) => x.key != k);
    }
  }

  lemma {:induction false} FilterKeysDistinct<V>(d: Dict<V>, p: Item<V> -> bool)
    requires KeysDistinct(d)
    ensures KeysDistinct(Filter(d, p))
  {
    if |d| > 0 {
      FilterKeysDistinct(d[1..], p);
      var rest := Filter(d[1..], p);
      forall i | 0 <= i < |rest| ensures rest[i].key != d[0].key {
        var j :| 0 <= j < |d[1..]| && d[1..][j] == rest[i];
        assert d[j + 1] == rest[i];
      }
    }
  }

  /** `list(d.values())`. */
  function Values<V>(d: Dict<V>): (r: seq<V>)
    ensures |r| == |d|
    ensures forall i :: 0 <= i < |d| ==> r[i] == d[i].val
  {
    seq(|d|, i requires 0 <= i < |d| => d[i].val)
  }

  // ---------------------------------------------------------------------------
  // Companion
  // ---------------------------------------------------------------------------

  /** A companion as stored in the preset or custom JSON: the fields
      `create_companion` reads with `data[...]` are required, the two it reads
      with `data.get(...)` may be absent. */
  datatype CompanionData = CompanionData(
    id: string,
    name: string,
    gender: string,
    personality: string,
    interests: seq<string>,
    greeting: string,
    relationshipGoal: string,
    tone: string,
    background: string,
    pronouns: Option<string>,
    imagePath: Option<string>)

  /** The `Companion` dataclass. */
  datatype Companion = Companion(
    id: string,
    name: string,
    gender: string,
    personality: string,
    interests: seq<string>,
    greeting: string,
    relationshipGoal: string,
    tone: string,
    background: string,
    pronouns: string,
    imagePath: Option<string>,
    customName: Option<string>,
    customPersonality: Option<string>,
    customInterests: Option<seq<string>>)

  /** The keyword arguments `create_companion` can pass on: the three
      `custom_*` fields (every other field is already passed explicitly). */
  datatype Customizations = Customizations(
    customName: Option<string>,
    customPersonality: Option<string>,
    customInterests: Option<seq<string>>)

  const NoCustomizations := Customizations(None, None, None)

  /** `display_name`: the custom name when it is a non-empty string. */
  function DisplayName(c: Companion): (r: string)
    ensures Truthy(c.customName) ==> r == c.customName.value
    ensures !Truthy(c.customName) ==> r == c.name
  {
    OrElse(c.customName, c.name)
  }

  /** `display_personality`: the custom personality when it is non-empty. */
  function DisplayPersonality(c: Companion): (r: string)
    ensures Truthy(c.customPersonality) ==> r == c.customPersonality.value
    ensures !Truthy(c.customPersonality) ==> r == c.personality
  {
    OrElse(c.customPersonality, c.personality)
  }

  /** `display_interests`: the custom list when it is a non-empty list. */
  function DisplayInterests(c: Companion): (r: seq<string>)
    ensures c.customInterests.Some? && |c.customInterests.value| > 0 ==> r == c.customInterests.value
    ensures c.customInterests.None? || |c.customInterests.value| == 0 ==> r == c.interests
  {
    if c.customInterests.Some? && |c.customInterests.value| > 0 then c.customInterests.value else c.interests
  }

  // ---------------------------------------------------------------------------
  // Conversation
  // ---------------------------------------------------------------------------

  datatype Message = Message(role: string, content: string, timestamp: string)

  datatype Conversation = Conversation(companionId: string, messages: seq<Message>, createdAt: string, lastUpdated: string)

  /** A message as sent to the model: role and content only. */
  datatype ContextMessage = ContextMessage(role: string, content: string)

  /** `add_message`: one message appended at the end, and the conversation's
      last update set to its timestamp. */
  function AddMessage(c: Conversation, role: string, content: string, timestamp: string): (r: Conversation)
    ensures |r.messages| == |c.messages| + 1
    ensures r.messages[..|c.messages|] == c.messages
    ensures r.messages[|c.messages|] == Message(role, content, timestamp)
    ensures r.lastUpdated == timestamp
    ensures r.companionId == c.companionId && r.createdAt == c.createdAt
  {
    var r := c.(messages := c.messages + [Message(role, content, timestamp)], lastUpdated := timestamp);
    assert r.messages[..|c.messages|] == c.messages;
    r
  }

  /** `get_context_messages(n)`: the messages of `self.messages[-n:]`, in
      order, reduced to role and content. For `n > 0` that is the last
      `min(n, len)` messages; `n == 0` gives every message, because `-0` is
      `0`; a negative `n` drops the first `-n` messages. */
  function ContextMessages(c: Conversation, n: int): (r: seq<ContextMessage>)
    ensures n > 0 ==> |r| == if n < |c.messages| then n else |c.messages|
    ensures n == 0 ==> |r| == |c.messages|
    ensures n < 0 ==> |r| == if -n < |c.messages| then |c.messages| + n else 0
    ensures |r| <= |c.messages|
    ensures forall i :: 0 <= i < |r| ==>
              r[i] == ContextMessage(c.messages[|c.messages| - |r| + i].role, c.messages[|c.messages| - |r| + i].content)
  {
    var recent := PySuffix(c.messages, n);
    seq(|recent|, i requires 0 <= i < |recent| => ContextMessage(recent[i].role, recent[i].content))
  }

  /** The window slides: after one more message, the last `n` messages are the
      previous last `n - 1` followed by the new one. */
  lemma {:induction false} ContextAfterAdd(c: Conversation, role: string, content: string, timestamp: string, n: int)
    requires n >= 2
    ensures ContextMessages(AddMessage(c, role, content, timestamp), n)
         == ContextMessages(c, n - 1) + [ContextMessage(role, content)]
  {
    var a := AddMessage(c, role, content, timestamp);
    var r := ContextMessages(a, n);
    var p := ContextMessages(c, n - 1);
    assert |r| == |p| + 1;
    forall i | 0 <= i < |r| ensures r[i] == (p + [ContextMessage(role, content)])[i] {
      if i < |p| {
        assert a.messages[|a.messages| - |r| + i] == c.messages[|c.messages| - |p| + i];
      }
    }
  }

  /** A window of one after adding a message holds just that message. */
  lemma LastContextIsNewest(c: Conversation, role: string, content: string, timestamp: string)
    ensures ContextMessages(AddMessage(c, role, content, timestamp), 1) == [ContextMessage(role, content)]
  {
  }

  // ---------------------------------------------------------------------------
  // Companion manager
  // ---------------------------------------------------------------------------

  /** The manager's state: presets and custom companions, each a dictionary
      keyed by companion id in insertion order. */
  datatype CompanionManager = CompanionManager(presets: Dict<CompanionData>, custom: Dict<CompanionData>)

  /** Every item sits under its own companion's id, once. */
  predicate KeyedById(d: Dict<CompanionData>) {
    && KeysDistinct(d)
    && forall i :: 0 <= i < |d| ==> d[i].key == d[i].val.id
  }

  predicate Valid(m: CompanionManager) {
    KeyedById(m.presets) && KeyedById(m.custom)
  }

  /** `_load_presets` / `_load_custom` after decoding: each record is stored
      under its id, a later record replacing an earlier one with that id. */
  function FromList(items: seq<CompanionData>): (r: Dict<CompanionData>)
    ensures KeyedById(r)
    ensures forall i :: 0 <= i < |items| ==> HasKey(r, items[i].id)
    ensures |items| > 0 ==> Lookup(r, items[|items| - 1].id) == Some(items[|items| - 1])
    ensures LastWins(r, items)
    ensures forall k :: HasKey(r, k) ==> exists i :: 0 <= i < |items| && items[i].id == k
  {
    if |items| == 0 then []
    else
      var init := FromList(items[..|items| - 1]);
      var last := items[|items| - 1];
      var r := Put(init, last.id, last);
      PutKeyedById(init, last);
      FromListStep(items, init, r);
      forall i | 0 <= i < |items| ensures HasKey(r, items[i].id) {
        if i < |items| - 1 {
          assert items[..|items| - 1][i] == items[i];
          assert Lookup(init, items[i].id).Some?;
          assert items[i].id == last.id || Lookup(r, items[i].id).Some?;
        } else {
          assert Lookup(r, last.id).Some?;
        }
      }
      r
  }

  /** Each record that no later record with the same id follows is the one
      stored under its id. */
  predicate LastWins(r: Dict<CompanionData>, items: seq<CompanionData>) {
    forall i :: 0 <= i < |items| && (forall j :: i < j < |items| ==> items[j].id != items[i].id) ==>
      Lookup(r, items[i].id) == Some(items[i])
  }

  /** The step of `FromList`: storing the last record keeps the last-wins
      property and adds no key but its id. */
  lemma FromListStep(items: seq<CompanionData>, init: Dict<CompanionData>, r: Dict<CompanionData>)
    requires |items| > 0 && KeysDistinct(init)
    requires LastWins(init, items[..|items| - 1])
    requires forall k :: HasKey(init, k) ==> exists i :: 0 <= i < |items| - 1 && items[i].id == k
    requires r == Put(init, items[|items| - 1].id, items[|items| - 1])
    ensures LastWins(r, items)
    ensures forall k :: HasKey(r, k) ==> exists i :: 0 <= i < |items| && items[i].id == k
  {
    var n := |items| - 1;
    var last := items[n];
    forall i | 0 <= i < |items| && (forall j :: i < j < |items| ==> items[j].id != items[i].id)
      ensures Lookup(r, items[i].id) == Some(items[i])
    {
      if i < n {
        assert items[i].id != last.id;
        assert items[..n][i] == items[i];
        assert forall j :: i < j < n ==> items[..n][j] == items[j];
      }
    }
    forall k | HasKey(r, k) ensures exists i :: 0 <= i < |items| && items[i].id == k {
      if k != last.id {
        assert Lookup(init, k) == Lookup(r, k);
        var i :| 0 <= i < n && items[i].id == k;
      } else {
        assert items[n].id == k;
      }
    }
  }

  /** Storing a record under its own id keeps every item under its own id. */
  lemma PutKeyedById(d: Dict<CompanionData>, x: CompanionData)
    requires KeyedById(d)
    ensures KeyedById(Put(d, x.id, x))
  {
    var r := Put(d, x.id, x);
    forall i | 0 <= i < |r| ensures r[i].key == r[i].val.id {
      var k := r[i].key;
      assert Lookup(r, k) == Some(r[i].val);
      if k != x.id {
        assert Lookup(d, k) == Some(r[i].val);
        assert Item(k, r[i].val) in d;
      }
    }
  }

  /** `save_custom`: the record is stored under its id among the customs. */
  function SaveCustom(m: CompanionManager, d: CompanionData): (r: CompanionManager)
    requires Valid(m)
    ensures Valid(r)
    ensures Lookup(r.custom, d.id) == Some(d)
    ensures forall k :: k != d.id ==> Lookup(r.custom, k) == Lookup(m.custom, k)
    ensures r.presets == m.presets
  {
    PutKeyedById(m.custom, d);
    m.(custom := Put(m.custom, d.id, d))
  }

  /** `delete_custom`: true exactly when the id was a custom companion;
      afterwards it is not one, and nothing else changes. */
  function DeleteCustom(m: CompanionManager, id: string): (r: (CompanionManager, bool))
    requires Valid(m)
    ensures Valid(r.0)
    ensures r.1 <==> Lookup(m.custom, id).Some?
    ensures Lookup(r.0.custom, id) == None
    ensures forall k :: k != id ==> Lookup(r.0.custom, k) == Lookup(m.custom, k)
    ensures r.0.presets == m.presets
    ensures !r.1 ==> r.0 == m
  {
    if HasKey(m.custom, id) then
      var c := Remove(m.custom, id);
      RemoveKeyedById(m.custom, id);
      (m.(custom := c), true)
    else (m, false)
  }

  lemma RemoveKeyedById(d: Dict<CompanionData>, k: string)
    requires KeyedById(d)
    ensures KeyedById(Remove(d, k))
  {
    var r := Remove(d, k);
    forall i | 0 <= i < |r| ensures r[i].key == r[i].val.id {
      assert r[i] in d;
    }
  }

  /** `get_preset`, `get_custom`. */
  function GetPreset(m: CompanionManager, id: string): Option<CompanionData> {
    Lookup(m.presets, id)
  }

  function GetCustom(m: CompanionManager, id: string): Option<CompanionData> {
    Lookup(m.custom, id)
  }

  /** `get_companion`: the preset when there is one (a stored record always
      holds its id, so it is never an empty, falsy dictionary), else the
      custom companion. */
  function GetCompanion(m: CompanionManager, id: string): (r: Option<CompanionData>)
    requires Valid(m)
    ensures HasKey(m.presets, id) ==> r == GetPreset(m, id)
    ensures !HasKey(m.presets, id) ==> r == GetCustom(m, id)
    ensures r.Some? ==> r.value.id == id
  {
    match Lookup(m.presets, id)
    case Some(p) => Some(p)
    case None => Lookup(m.custom, id)
  }

  /** `get_all_companions`: every preset, then every custom companion, each
      in insertion order. */
  function AllCompanions(m: CompanionManager): (r: seq<CompanionData>)
    ensures |r| == |m.presets| + |m.custom|
    ensures r[..|m.presets|] == Values(m.presets)
    ensures r[|m.presets|..] == Values(m.custom)
  {
    var r := Values(m.presets) + Values(m.custom);
    assert r[..|m.presets|] == Values(m.presets);
    assert r[|m.presets|..] == Values(m.custom);
    r
  }

  /** A custom companion that shadows a preset id is listed by
      `get_all_companions` but never returned by `get_companion`. */
  lemma PresetShadowsCustom(m: CompanionManager, p: CompanionData, c: CompanionData)
    requires Valid(m)
    requires Item(p.id, p) in m.presets && Item(p.id, c) in m.custom && c != p
    ensures GetCompanion(m, p.id) == Some(p)
    ensures c in AllCompanions(m)
  {
    var r := AllCompanions(m);
    var j :| 0 <= j < |m.custom| && m.custom[j] == Item(p.id, c);
    assert r[|m.presets|..][j] == c;
    var i :| 0 <= i < |m.presets| && m.presets[i] == Item(p.id, p);
    assert Lookup(m.presets, p.id) == Some(p);
  }

  /** `create_companion`: no companion when the id is neither a preset nor a
      custom companion; otherwise the stored fields, `pronouns` defaulting to
      the empty string, plus the customisations. */
  function CreateCompanion(m: CompanionManager, id: string, cust: Customizations): (r: Option<Companion>)
    requires Valid(m)
    ensures r.None? <==> !HasKey(m.presets, id) && !HasKey(m.custom, id)
    ensures r.Some? ==>
              && GetCompanion(m, id).Some?
              && var d := GetCompanion(m, id).value;
              && r.value.id == id && r.value.name == d.name && r.value.gender == d.gender
              && r.value.personality == d.personality && r.value.interests == d.interests
              && r.value.tone == d.tone && r.value.pronouns == d.pronouns.GetOr("")
              && r.value.imagePath == d.imagePath
              && r.value.greeting == d.greeting && r.value.relationshipGoal == d.relationshipGoal
              && r.value.background == d.background
              && r.value.customName == cust.customName
              && r.value.customPersonality == cust.customPersonality
              && r.value.customInterests == cust.customInterests
  {
    match GetCompanion(m, id)
    case None => None
    case Some(d) =>
      Some(Companion(d.id, d.name, d.gender, d.personality, d.interests, d.greeting, d.relationshipGoal,
                     d.tone, d.background, d.pronouns.GetOr(""), d.imagePath,
                     cust.customName, cust.customPersonality, cust.customInterests))
  }

  /** A created companion shows its custom name when one was given and the
      stored name otherwise. */
  lemma CreatedDisplayName(m: CompanionManager, id: string, cust: Customizations)
    requires Valid(m) && GetCompanion(m, id).Some?
    ensures CreateCompanion(m, id, cust).Some?
    ensures DisplayName(CreateCompanion(m, id, cust).value)
         == if Truthy(cust.customName) then cust.customName.value else GetCompanion(m, id).value.name
  {
  }

  // ---------------------------------------------------------------------------
  // Filtering
  // ---------------------------------------------------------------------------

  /** Which companions a gender argument keeps: exact lower-case matches for
      "female" and "male", {non-binary, genderfluid} for the non-binary
      aliases, genders mentioning "transgender" for "transgender", and every
      companion for any other string. */
  predicate GenderKeeps(gender: string, c: CompanionData) {
    var g := Lower(gender);
    var cg := Lower(c.gender);
    if g == "female" then cg == "female"
    else if g == "male" then cg == "male"
    else if g == "non-binary" || g == "nonbinary" || g == "enby" then cg == "non-binary" || cg == "genderfluid"
    else if g == "transgender" then Contains(cg, "transgender")
    else true
  }

  /** The trait appears, case-insensitively, in the personality or the tone. */
  predicate TraitKeeps(personalityTrait: string, c: CompanionData) {
    Contains(Lower(c.personality), Lower(personalityTrait)) || Contains(Lower(c.tone), Lower(personalityTrait))
  }

  /** Both filters that `filter_companions` applies, as one condition. */
  predicate Selected(gender: Option<string>, personalityTrait: Option<string>, c: CompanionData) {
    (!Truthy(gender) || GenderKeeps(gender.value, c)) && (!Truthy(personalityTrait) || TraitKeeps(personalityTrait.value, c))
  }

  function ByGender(gender: string): CompanionData -> bool {
    c => GenderKeeps(gender, c)
  }

  function ByTrait(personalityTrait: string): CompanionData -> bool {
    c => TraitKeeps(personalityTrait, c)
  }

  function BySelection(gender: Option<string>, personalityTrait: Option<string>): CompanionData -> bool {
    c => Selected(gender, personalityTrait, c)
  }

  /** The gender pass followed by the trait pass, as `filter_companions` and
      `filter_presets` run them over their list. */
  function FilterList(cs: seq<CompanionData>, gender: Option<string>, personalityTrait: Option<string>): (r: seq<CompanionData>)
    ensures |r| <= |cs|
    ensures forall c :: c in r <==> c in cs && Selected(gender, personalityTrait, c)
  {
    var byGender := if Truthy(gender) then Filter(cs, ByGender(gender.value)) else cs;
    if Truthy(personalityTrait) then Filter(byGender, ByTrait(personalityTrait.value)) else byGender
  }

  /** The two passes keep exactly the companions meeting both conditions, in
      their original order. */
  lemma FilterListInOrder(cs: seq<CompanionData>, gender: Option<string>, personalityTrait: Option<string>)
    ensures FilterList(cs, gender, personalityTrait) == Filter(cs, BySelection(gender, personalityTrait))
  {
    var sel := BySelection(gender, personalityTrait);
    if Truthy(gender) && Truthy(personalityTrait) {
      var pg := ByGender(gender.value);
      var pt := ByTrait(personalityTrait.value);
      FilterFilter(cs, pg, pt);
      FilterSame(cs, x => pg(x) && pt(x), sel);
    } else if Truthy(gender) {
      FilterSame(cs, ByGender(gender.value), sel);
    } else if Truthy(personalityTrait) {
      FilterSame(cs, ByTrait(personalityTrait.value), sel);
    } else {
      FilterAll(cs, sel);
    }
  }

  /** `filter_companions` over presets and customs. */
  function FilterCompanions(m: CompanionManager, gender: Option<string>, personalityTrait: Option<string>): (r: seq<CompanionData>)
    ensures forall c :: c in r <==> c in AllCompanions(m) && Selected(gender, personalityTrait, c)
  {
    FilterList(AllCompanions(m), gender, personalityTrait)
  }

  /** `filter_presets`: the same filter over the presets alone. */
  function FilterPresets(m: CompanionManager, gender: Option<string>, personalityTrait: Option<string>): (r: seq<CompanionData>)
    ensures forall c :: c in r <==> c in Values(m.presets) && Selected(gender, personalityTrait, c)
  {
    FilterList(Values(m.presets), gender, personalityTrait)
  }

  /** The gender aliases select what the filter promises. */
  lemma GenderAliases(c: CompanionData)
    ensures GenderKeeps("Female", c) <==> Lower(c.gender) == "female"
    ensures GenderKeeps("enby", c) <==> Lower(c.gender) == "non-binary" || Lower(c.gender) == "genderfluid"
    ensures GenderKeeps("any", c)
  {
    assert Lower("Female") == "female";
    assert Lower("enby") == "enby";
    assert Lower("any") == "any";
  }
}
