/** The part of `import_memories` (memory.py) that runs once the file has
    been decoded: the shape check, the optional replacement of the store, and
    the per-record merge with its added / updated / skipped counters. */
module MemoryImport {

  import opened Optional
  import opened Seqs
  import opened Text
  import opened MemoryStore

  /** One decoded element of the memory list. `Malformed` stands for every
      element `Memory.from_dict` rejects: not a dictionary, a required field
      (`id`, `memory_type`, `content`) missing, or an unknown field present.
      Absent optional fields are `None`; `importance` and `is_shared` also
      tell an explicit JSON `null` apart from an absent key. */
  datatype ImportItem =
    | Record(
        id: string,
        memoryType: string,
        content: string,
        key: Option<string>,
        value: Option<string>,
        importance: Slot<int>,
        createdAt: Option<nat>,
        lastAccessed: Option<nat>,
        accessCount: Option<int>,
        companionId: Option<string>,
        conversationId: Option<string>,
        isShared: Slot<bool>)
    | Malformed

  /** A field of a decoded dictionary that may be missing, present as JSON
      `null`, or present with a value. */
  datatype Slot<T> = Missing | Null | Given(value: T)

  /** The decoded file: an export envelope (a dictionary with `memories`), a
      bare list of records, an envelope whose `memories` cannot be iterated
      at all (JSON `null`, a number or a boolean, named by its Python type:
      `NoneType`, `int`, `float`, `bool`), or anything else. An envelope
      whose `memories` is a string or a dictionary iterates over characters
      or keys, none of which `from_dict` accepts: that is an `Envelope`
      whose elements are all `Malformed`. */
  datatype ImportFile =
    | Envelope(memories: seq<ImportItem>, version: Slot<string>, exportDate: Slot<string>)
    | BareList(items: seq<ImportItem>)
    | Uniterable(typeName: string)
    | OtherShape

  /** The reply of `import_memories`; a reported version or date of `None`
      is the JSON `null` the envelope held. */
  datatype ImportResult =
    | ImportFailed(error: string)
    | Imported(added: nat, updated: nat, skipped: nat, total: nat,
               sourceVersion: Option<string>, sourceDate: Option<string>)

  datatype Outcome = Added | Updated | Skipped

  /** `Memory.from_dict` after the `is_shared` default has been filled in:
      absent fields take the dataclass defaults, and an absent `is_shared`
      means shared (exports older than that field). Only an absent key is
      filled in: an explicit `null` stays `None` in Python, which every
      filter on the flag (`if m.is_shared`, `not m.is_shared`) treats as
      false, so it is a companion-specific record here. */
  function FromItem(item: ImportItem): (m: Memory)
    requires item.Record?
    ensures m.id == item.id && m.memoryType == item.memoryType && m.content == item.content
    ensures m.key == item.key && m.value == item.value
    ensures m.isShared <==> item.isShared.Missing? || item.isShared == Given(true)
    ensures item.importance.Given? ==> m.importance == item.importance.value
    ensures item.importance.Missing? ==> m.importance == 1
  {
    Memory(item.id, item.memoryType, item.content, item.key, item.value,
           if item.importance.Given? then item.importance.value else 1,
           item.createdAt.GetOr(0), item.lastAccessed.GetOr(0),
           item.accessCount.GetOr(0), item.companionId.GetOr(""), item.conversationId,
           match item.isShared case Missing => true case Null => false case Given(b) => b)
  }

  /** The element `to_dict` writes for a record: every field present. */
  function ToItem(m: Memory): (item: ImportItem)
    ensures item.Record?
  {
    Record(m.id, m.memoryType, m.content, m.key, m.value, Given(m.importance), Some(m.createdAt),
           Some(m.lastAccessed), Some(m.accessCount), Some(m.companionId), m.conversationId, Given(m.isShared))
  }

  lemma FromToItem(m: Memory)
    ensures FromItem(ToItem(m)) == m
  {
  }

  /** The element is a record whose non-empty key is already indexed, and
      the import merges: it goes to the indexed record. */
  predicate Merges(s: Store, item: ImportItem, merge: bool) {
    merge && item.Record? && Truthy(item.key) && item.key.value in s.index
  }

  /** A record whose `importance` is JSON `null`. */
  predicate NullImportance(item: ImportItem) {
    item.Record? && item.importance.Null?
  }

  /** One pass of the import loop. With `merge`, a record whose non-empty key
      is already indexed updates the indexed record's value, content and
      importance (the larger one) and counts as updated; when its importance
      is `null`, the value and content have already been overwritten when
      `max` raises, and the element counts as skipped. Every other record is
      appended and indexed under its key, replacing an index entry when the
      store was not merged into. */
  function ImportOne(s: Store, item: ImportItem, merge: bool): (r: (Store, Outcome))
    requires Valid(s)
    ensures Valid(r.0)
    ensures r.1 == Skipped <==> item.Malformed? || (Merges(s, item, merge) && NullImportance(item))
    ensures r.1 == Updated <==> Merges(s, item, merge) && !NullImportance(item)
    ensures item.Malformed? ==> r.0 == s
    ensures r.1 == Updated ==>
              && SameExcept(s, r.0, s.index[item.key.value])
              && Get(s, s.index[item.key.value]).Some?
              && Get(r.0, s.index[item.key.value]) ==
                 Some(Merged(Get(s, s.index[item.key.value]).value, item.content, item.value, FromItem(item).importance))
    ensures Merges(s, item, merge) && NullImportance(item) ==>
              && SameExcept(s, r.0, s.index[item.key.value])
              && Get(s, s.index[item.key.value]).Some?
              && Get(r.0, s.index[item.key.value]) ==
                 Some(Get(s, s.index[item.key.value]).value.(value := item.value, content := item.content))
    ensures r.1 == Added ==>
              && r.0.entries == s.entries + [Entry(s.nextRef, FromItem(item))]
              && r.0.index == (if Truthy(item.key) then s.index[item.key.value := s.nextRef] else s.index)
              && r.0.nextRef == s.nextRef + 1
    ensures !merge ==> r.1 != Updated
  {
    if item.Malformed? then (s, Skipped)
    else
      var m := FromItem(item);
      if Truthy(m.key) && m.key.value in s.index && merge then
        var ref := s.index[m.key.value];
        var i := Find(s.entries, ref).value;
        var existing := s.entries[i].mem;
        var updated := if item.importance.Null? then existing.(value := m.value, content := m.content)
                       else Merged(existing, m.content, m.value, m.importance);
        SetAtValid(s, i, updated);
        var t := SetAt(s, i, updated);
        FindSameRefs(s.entries, t.entries, ref);
        (t, if item.importance.Null? then Skipped else Updated)
      else
        var t := Store(s.entries + [Entry(s.nextRef, m)], if Truthy(m.key) then s.index[m.key.value := s.nextRef] else s.index,
                       s.nextRef + 1);
        AppendValid(s, m, t);
        (t, Added)
  }

  /** The import loop over all elements, returning the final store and the
      added, updated and skipped counters. */
  function ImportAll(s: Store, items: seq<ImportItem>, merge: bool): (r: (Store, nat, nat, nat))
    requires Valid(s)
    ensures Valid(r.0)
    ensures r.1 + r.2 + r.3 == |items|
    ensures r.3 >= CountMalformed(items)
    ensures !merge || NoNullImportance(items) ==> r.3 == CountMalformed(items)
    ensures !merge ==> r.2 == 0
    ensures |r.0.entries| == |s.entries| + r.1
    decreases |items|
  {
    if |items| == 0 then (s, 0, 0, 0)
    else
      var one := ImportOne(s, items[0], merge);
      var rest := ImportAll(one.0, items[1..], merge);
      (rest.0,
       rest.1 + (if one.1 == Added then 1 else 0),
       rest.2 + (if one.1 == Updated then 1 else 0),
       rest.3 + (if one.1 == Skipped then 1 else 0))
  }

  predicate NoNullImportance(items: seq<ImportItem>) {
    forall i :: 0 <= i < |items| ==> !NullImportance(items[i])
  }

  function CountMalformed(items: seq<ImportItem>): nat {
    if |items| == 0 then 0 else (if items[0].Malformed? then 1 else 0) + CountMalformed(items[1..])
  }

  /** The records `from_dict` accepts, in file order. */
  function Accepted(items: seq<ImportItem>): (ms: seq<Memory>)
    ensures |ms| + CountMalformed(items) == |items|
  {
    if |items| == 0 then []
    else if items[0].Malformed? then Accepted(items[1..])
    else [FromItem(items[0])] + Accepted(items[1..])
  }

  /** `data.get(field, "unknown")` on an envelope: the default only when the
      key is absent; a JSON `null` comes back as `None`. */
  function Reported(v: Slot<string>): (r: Option<string>)
    ensures r.None? <==> v.Null?
    ensures v.Missing? ==> r == Some("unknown")
    ensures v.Given? ==> r == Some(v.value)
  {
    match v
    case Missing => Some("unknown")
    case Null => None
    case Given(x) => Some(x)
  }

  /** The message of the `TypeError` that iterating a value of `typeName`
      raises. */
  function NotIterable(typeName: string): string {
    "'" + typeName + "' object is not iterable"
  }

  /** `import_memories` after decoding, as it evidently should behave: a
      file that is not an envelope or a list, or whose record list cannot be
      iterated, is rejected and leaves the store alone; otherwise the store
      is emptied first unless merging, the elements are imported in order,
      and the total is the number added plus the number updated. */
  function ImportMemories(s: Store, file: ImportFile, merge: bool): (r: (Store, ImportResult))
    requires Valid(s)
    ensures Valid(r.0)
    ensures r.1.ImportFailed? <==> file.OtherShape? || file.Uniterable?
    ensures file.OtherShape? ==> r.0 == s && r.1 == ImportFailed("Invalid import file format")
    ensures file.Uniterable? ==> r.0 == s && r.1 == ImportFailed(NotIterable(file.typeName))
    ensures r.1.Imported? ==>
              && r.1.total == r.1.added + r.1.updated
              && r.1.added + r.1.updated + r.1.skipped == |ItemsOf(file)|
              && r.1.skipped >= CountMalformed(ItemsOf(file))
    ensures r.1.Imported? && (!merge || NoNullImportance(ItemsOf(file))) ==> r.1.skipped == CountMalformed(ItemsOf(file))
    ensures r.1.Imported? && !merge ==> r.1.updated == 0 && |r.0.entries| == r.1.added
    ensures r.1.Imported? && merge ==> |r.0.entries| == |s.entries| + r.1.added
    ensures file.BareList? ==> r.1.Imported? && r.1.sourceVersion == Some("unknown") && r.1.sourceDate == Some("unknown")
    ensures file.Envelope? ==> r.1.Imported? && r.1.sourceVersion == Reported(file.version)
    ensures file.Envelope? ==> r.1.sourceDate == Reported(file.exportDate)
  {
    if file.OtherShape? then (s, ImportFailed("Invalid import file format"))
    else if file.Uniterable? then (s, ImportFailed(NotIterable(file.typeName)))
    else
      var start := if merge then s else EmptyStore(s.nextRef);
      var done := ImportAll(start, ItemsOf(file), merge);
      var version := if file.Envelope? then Reported(file.version) else Some("unknown");
      var date := if file.Envelope? then Reported(file.exportDate) else Some("unknown");
      (done.0, Imported(done.1, done.2, done.3, done.1 + done.2, version, date))
  }

  /** `import_memories` as written (memory.py:428-437, 489-493): the
      store is emptied before the loop, and a record list that cannot be
      iterated raises at the loop header, outside the per-element `try`. The
      outer handler then reports the error with the store already emptied,
      and the next `save` writes the empty store to disk. Every other file
      behaves as in `ImportMemories`. */
  function ImportMemoriesAsWritten(s: Store, file: ImportFile, merge: bool): (r: (Store, ImportResult))
    requires Valid(s)
    ensures Valid(r.0)
    ensures file.Uniterable? ==> r.1 == ImportFailed(NotIterable(file.typeName))
    ensures file.Uniterable? && !merge ==> r.0.entries == [] && r.0.index == map[]
    ensures file.Uniterable? && merge ==> r.0 == s
    ensures !file.Uniterable? ==> r == ImportMemories(s, file, merge)
  {
    if file.Uniterable? then (if merge then s else EmptyStore(s.nextRef), ImportFailed(NotIterable(file.typeName)))
    else ImportMemories(s, file, merge)
  }

  /** The finding: replacing from an envelope whose `memories` is `null`
      fails, yet as written it empties a store that held records, while the
      corrected import leaves the store as it was. */
  lemma NullMemoriesEmptiesStore(s: Store)
    requires Valid(s) && |s.entries| > 0
    ensures var bad := ImportMemoriesAsWritten(s, Uniterable("NoneType"), false);
            var good := ImportMemories(s, Uniterable("NoneType"), false);
            && bad.1 == good.1 == ImportFailed(NotIterable("NoneType"))
            && bad.0.entries == [] && bad.0.entries != s.entries
            && good.0 == s
  {
    var bad := ImportMemoriesAsWritten(s, Uniterable("NoneType"), false);
    var good := ImportMemories(s, Uniterable("NoneType"), false);
    assert bad.1 == good.1;
    assert |bad.0.entries| == 0 < |s.entries|;
  }

  function ItemsOf(file: ImportFile): seq<ImportItem> {
    match file
    case Envelope(items, _, _) => items
    case BareList(items) => items
    case Uniterable(_) => []
    case OtherShape => []
  }

  // ---------------------------------------------------------------------------
  // Properties of the loop
  // ---------------------------------------------------------------------------

  /** Without merging, every accepted record is appended in file order and the
      index is the one `_rebuild_index` would build: the last record with a
      key wins. */
  lemma {:induction false} ReplaceAppendsAll(s: Store, items: seq<ImportItem>)
    requires Rebuilt(s)
    ensures Mems(ImportAll(s, items, false).0.entries) == Mems(s.entries) + Accepted(items)
    ensures ImportAll(s, items, false).0.index == RebuildIndex(ImportAll(s, items, false).0.entries)
    decreases |items|
  {
    if |items| > 0 {
      var one := ImportOne(s, items[0], false);
      ReplaceOne(s, items[0]);
      ReplaceAppendsAll(one.0, items[1..]);
      ImportAllCons(s, items, false);
      AcceptedCons(items);
      AppendAssoc(Mems(s.entries), Accepted([items[0]]), Accepted(items[1..]));
    }
  }

  /** A valid store whose index is the one rebuilt from its records. */
  predicate Rebuilt(s: Store) {
    Valid(s) && s.index == RebuildIndex(s.entries)
  }

  lemma AppendAssoc(a: seq<Memory>, b: seq<Memory>, c: seq<Memory>)
    ensures a + b + c == a + (b + c)
  {
  }

  /** The loop's first pass, spelled out. */
  lemma ImportAllCons(s: Store, items: seq<ImportItem>, merge: bool)
    requires Valid(s) && |items| > 0
    ensures ImportAll(s, items, merge).0 == ImportAll(ImportOne(s, items[0], merge).0, items[1..], merge).0
  {
  }

  lemma AcceptedCons(items: seq<ImportItem>)
    requires |items| > 0
    ensures Accepted(items) == Accepted([items[0]]) + Accepted(items[1..])
  {
    assert [items[0]][1..] == [];
  }

  /** One pass of the loop without merging appends the accepted record and
      keeps the index the rebuilt one. */
  lemma ReplaceOne(s: Store, item: ImportItem)
    requires Rebuilt(s)
    ensures Mems(ImportOne(s, item, false).0.entries) == Mems(s.entries) + Accepted([item])
    ensures Rebuilt(ImportOne(s, item, false).0)
  {
    var one := ImportOne(s, item, false);
    if one.1 == Added {
      var e := Entry(s.nextRef, FromItem(item));
      assert one.0.entries == s.entries + [e];
      assert (s.entries + [e])[..|s.entries|] == s.entries;
      assert Mems(one.0.entries) == Mems(s.entries) + [FromItem(item)];
    }
  }

  /** Merging into a store with one record per key keeps one record per key. */
  lemma {:induction false} MergeKeepsCanonical(s: Store, items: seq<ImportItem>)
    requires Canonical(s)
    ensures Canonical(ImportAll(s, items, true).0)
    decreases |items|
  {
    if |items| > 0 {
      var one := ImportOne(s, items[0], true);
      if Merges(s, items[0], true) {
        SameKeysCanonicalParts(s.entries, one.0.entries, s.index);
      } else if one.1 == Added {
        AppendCanonicalParts(s.entries, s.index, Entry(s.nextRef, FromItem(items[0])));
      }
      MergeKeepsCanonical(one.0, items[1..]);
    }
  }

  /** Exporting a store as JSON and importing that envelope into an empty
      store without merging gives back the same records, none skipped, and
      reports the export's version and date. */
  lemma ExportImportRoundTrip(s: Store, firstRef: Ref, exportDate: string)
    ensures
      var e := ExportMemories(s, "json", exportDate);
      var r := ImportMemories(EmptyStore(firstRef), e.file, false);
      && r.1.Imported? && r.1.skipped == 0 && r.1.added == e.count
      && r.1.sourceVersion == Some("1.0") && r.1.sourceDate == Some(exportDate)
      && Mems(r.0.entries) == Mems(s.entries)
  {
    var items := ToItems(Mems(s.entries));
    AcceptedToItems(Mems(s.entries));
    ReplaceFromEmpty(firstRef, Envelope(items, Given("1.0"), Given(exportDate)));
  }

  /** Importing a list or an envelope into an empty store without merging
      leaves exactly the accepted records, in file order. */
  lemma ReplaceFromEmpty(firstRef: Ref, file: ImportFile)
    requires file.Envelope? || file.BareList?
    ensures Mems(ImportMemories(EmptyStore(firstRef), file, false).0.entries) == Accepted(ItemsOf(file))
  {
    ReplaceAppendsAll(EmptyStore(firstRef), ItemsOf(file));
    assert Mems(EmptyStore(firstRef).entries) == [];
  }

  datatype ExportResult =
    | ExportedJson(file: ImportFile, count: nat)
    | ExportedText(count: nat)
    | ExportFailed(error: string)

  /** `export_memories` without the file write: the JSON export is an
      envelope of version "1.0" holding every record with all its fields, the
      text export reports the number of records, and any other format is
      refused. */
  function ExportMemories(s: Store, format: string, exportDate: string): (r: ExportResult)
    ensures format == "json" ==> r.ExportedJson? && r.count == |s.entries| && r.file.Envelope?
    ensures format == "json" ==> r.file.version == Given("1.0") && r.file.exportDate == Given(exportDate)
    ensures format == "json" ==> Accepted(ItemsOf(r.file)) == Mems(s.entries) && CountMalformed(ItemsOf(r.file)) == 0
    ensures format == "txt" ==> r == ExportedText(|s.entries|)
    ensures format != "json" && format != "txt" ==> r == ExportFailed("Unknown format: " + format)
  {
    if format == "json" then
      AcceptedToItems(Mems(s.entries));
      ExportedJson(Envelope(ToItems(Mems(s.entries)), Given("1.0"), Given(exportDate)), |s.entries|)
    else if format == "txt" then ExportedText(|s.entries|)
    else ExportFailed("Unknown format: " + format)
  }

  function ToItems(ms: seq<Memory>): (r: seq<ImportItem>)
    ensures |r| == |ms|
  {
    seq(|ms|, i requires 0 <= i < |ms| => ToItem(ms[i]))
  }

  lemma {:induction false} AcceptedToItems(ms: seq<Memory>)
    ensures Accepted(ToItems(ms)) == ms
    ensures CountMalformed(ToItems(ms)) == 0
  {
    if |ms| > 0 {
      assert ToItems(ms)[1..] == ToItems(ms[1..]);
      AcceptedToItems(ms[1..]);
      FromToItem(ms[0]);
    }
  }

  /** Replacing with a file that holds two records under one key keeps both
      records, and the key points at the second: without merging the store can
      hold a key more than once. */
  lemma ReplaceKeepsDuplicateKeys(a: ImportItem, b: ImportItem, firstRef: Ref)
    requires a.Record? && b.Record? && a.key == Some("name") && b.key == Some("name")
    ensures
      var r := ImportMemories(EmptyStore(firstRef), BareList([a, b]), false);
      && |r.0.entries| == 2
      && r.0.entries[0].mem.key == Some("name") && r.0.entries[1].mem.key == Some("name")
      && "name" in r.0.index && r.0.index["name"] == r.0.entries[1].ref
      && !KeysUnique(r.0.entries)
  {
    var s0 := EmptyStore(firstRef);
    var one := ImportOne(s0, a, false);
    var two := ImportOne(one.0, b, false);
    assert one.0.index == map["name" := firstRef];
    assert two.0.index == map["name" := firstRef + 1];
    assert two.0.entries == [Entry(firstRef, FromItem(a)), Entry(firstRef + 1, FromItem(b))];
    assert [a, b][1..] == [b];
    assert [b][1..] == [];
    assert ImportAll(one.0, [b], false).0 == ImportAll(two.0, [], false).0 == two.0;
    assert ImportAll(s0, [a, b], false).0 == two.0;
  }

  /** An element without `is_shared` is imported as shared; one with
      `is_shared: false` or `is_shared: null` is companion-specific. */
  lemma MissingSharedFlagMeansShared(a: ImportItem, b: ImportItem, c: ImportItem, firstRef: Ref)
    requires a.Record? && a.isShared == Missing && a.key == None
    requires b.Record? && b.isShared == Given(false) && b.key == None
    requires c.Record? && c.isShared == Null && c.key == None
    ensures
      var r := ImportMemories(EmptyStore(firstRef), BareList([a, b, c]), false);
      && r.1 == Imported(3, 0, 0, 3, Some("unknown"), Some("unknown"))
      && r.0.entries[0].mem.isShared && !r.0.entries[1].mem.isShared && !r.0.entries[2].mem.isShared
  {
    var s0 := EmptyStore(firstRef);
    var one := ImportOne(s0, a, false);
    var two := ImportOne(one.0, b, false);
    assert [a, b, c][1..] == [b, c];
    assert [b, c][1..] == [c];
    assert [c][1..] == [];
    assert ImportAll(s0, [a, b, c], false).0 == ImportAll(one.0, [b, c], false).0;
    assert ImportAll(one.0, [b, c], false).0 == ImportAll(two.0, [c], false).0;
  }

  /** Merging a record with a `null` importance into a store that already
      indexes its key overwrites that record's value and content, keeps its
      importance, and counts the element as skipped, not updated. */
  lemma NullImportanceMergeSkipped(s: Store, item: ImportItem)
    requires Valid(s)
    requires item.Record? && item.importance == Null && Truthy(item.key) && item.key.value in s.index
    ensures
      var r := ImportMemories(s, BareList([item]), true);
      var ref := s.index[item.key.value];
      && r.1 == Imported(0, 0, 1, 0, Some("unknown"), Some("unknown"))
      && Get(s, ref).Some?
      && Get(r.0, ref) == Some(Get(s, ref).value.(value := item.value, content := item.content))
      && Get(r.0, ref).value.importance == Get(s, ref).value.importance
  {
    var one := ImportOne(s, item, true);
    assert [item][1..] == [];
    assert ImportAll(s, [item], true).0 == one.0;
  }
}
