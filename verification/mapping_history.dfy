/** The in-memory mapping-history store: remembered (column, field) pairs per
    schema type, and a blacklist of rejected pairs
    (src/ingest/mapping_history.py). Loading and saving the YAML file and the
    `last_used` clock stamp are not modelled. */
module MappingHistory {
  import opened Wrappers
  import opened Ascii
  import Seqs
  import Sorting

  /** A remembered mapping; `sourceColumn` is stored normalised. */
  datatype Entry = Entry(
    sourceColumn: string,
    targetField: string,
    clientPattern: string,
    useCount: int,
    isUserCorrection: bool)

  /** A rejected (column, field, schema type) triple. */
  datatype Banned = Banned(sourceColumn: string, targetField: string, schemaType: string)

  /** The history document: one entry list per schema type (the
      `<type>_mappings` keys) and the blacklist. */
  datatype History = History(mappings: map<string, seq<Entry>>, blacklist: seq<Banned>)

  /** The document created when no history file exists. */
  const Fresh := History(map["masterdata" := [], "orders" := []], [])

  /** `_normalize`: lowercase, strip, then spaces and hyphens to `_`. */
  function Normalize(name: string): (r: string)
    ensures |r| <= |name|
    ensures forall i :: 0 <= i < |r| ==> !IsUpper(r[i]) && r[i] != ' ' && r[i] != '-'
    ensures |r| > 0 ==> !IsSpace(r[0]) && !IsSpace(r[|r| - 1])
  {
    MapChar(MapChar(Strip(Lower(name)), ' ', '_'), '-', '_')
  }

  /** Storing a key twice gives the same key. */
  lemma NormalizeIdempotent(name: string)
    ensures Normalize(Normalize(name)) == Normalize(name)
  {
    var t := Normalize(name);
    LowerKeeps(t);
    StripKeeps(t);
    MapCharKeeps(t, ' ', '_');
    MapCharKeeps(t, '-', '_');
  }

  /** `data.get(f"{schema_type}_mappings", [])`. */
  function EntriesOf(h: History, schemaType: string): (r: seq<Entry>)
    ensures schemaType !in h.mappings ==> r == []
  {
    if schemaType in h.mappings then h.mappings[schemaType] else []
  }

  predicate IsPair(e: Entry, key: string, target: string)
  {
    e.sourceColumn == key && e.targetField == target
  }

  /** The position of the first entry for the pair, if any. */
  function FindPair(entries: seq<Entry>, key: string, target: string): (r: Option<nat>)
    ensures r.Some? ==> r.value < |entries| && IsPair(entries[r.value], key, target)
    ensures r.Some? ==> forall j :: 0 <= j < r.value ==> !IsPair(entries[j], key, target)
    ensures r.None? <==> forall j :: 0 <= j < |entries| ==> !IsPair(entries[j], key, target)
  {
    if |entries| == 0 then None
    else if IsPair(entries[0], key, target) then Some(0)
    else match FindPair(entries[1..], key, target)
      case None => None
      case Some(k) => Some(k + 1)
  }

  /** An existing entry used once more. */
  function Bump(e: Entry, clientPattern: string, isUserCorrection: bool): (r: Entry)
    ensures r.sourceColumn == e.sourceColumn && r.targetField == e.targetField
    ensures r.useCount == e.useCount + 1
    ensures r.isUserCorrection <==> e.isUserCorrection || isUserCorrection
    ensures e.clientPattern != "" ==> r.clientPattern == e.clientPattern
    ensures e.clientPattern == "" ==> r.clientPattern == clientPattern
  {
    Entry(e.sourceColumn, e.targetField,
      if clientPattern != "" && e.clientPattern == "" then clientPattern else e.clientPattern,
      e.useCount + 1, e.isUserCorrection || isUserCorrection)
  }

  /** `record_mapping`: the first entry for the normalised pair is bumped;
      otherwise a new entry with use count 1 is appended. */
  function RecordMapping(h: History, sourceColumn: string, targetField: string, schemaType: string,
                         clientPattern: string, isUserCorrection: bool): (r: History)
    ensures r.blacklist == h.blacklist
    ensures r.mappings.Keys == h.mappings.Keys + {schemaType}
    ensures forall k | k in h.mappings && k != schemaType :: r.mappings[k] == h.mappings[k]
    ensures var before := EntriesOf(h, schemaType);
      var after := EntriesOf(r, schemaType);
      var key := Normalize(sourceColumn);
      match FindPair(before, key, targetField)
      case Some(i) =>
        |after| == |before| && after[i] == Bump(before[i], clientPattern, isUserCorrection) &&
        forall j :: 0 <= j < |before| && j != i ==> after[j] == before[j]
      case None =>
        after == before + [Entry(key, targetField, clientPattern, 1, isUserCorrection)]
  {
    var before := EntriesOf(h, schemaType);
    var key := Normalize(sourceColumn);
    var after := match FindPair(before, key, targetField)
      case Some(i) => before[i := Bump(before[i], clientPattern, isUserCorrection)]
      case None => before + [Entry(key, targetField, clientPattern, 1, isUserCorrection)];
    History(h.mappings[schemaType := after], h.blacklist)
  }

  /** No pair is stored twice under one schema type. */
  predicate PairsUnique(entries: seq<Entry>)
  {
    forall i, j :: 0 <= i < j < |entries| ==>
      !IsPair(entries[j], entries[i].sourceColumn, entries[i].targetField)
  }

  /** Recording keeps pairs unique and leaves the pair stored exactly once,
      with the correction flag raised when the recording says so. */
  lemma RecordMappingStoresPair(h: History, sourceColumn: string, targetField: string, schemaType: string,
                                clientPattern: string, isUserCorrection: bool)
    requires PairsUnique(EntriesOf(h, schemaType))
    ensures var after := EntriesOf(RecordMapping(h, sourceColumn, targetField, schemaType, clientPattern, isUserCorrection), schemaType);
      PairsUnique(after) &&
      exists i :: 0 <= i < |after| && IsPair(after[i], Normalize(sourceColumn), targetField) &&
        (isUserCorrection ==> after[i].isUserCorrection)
  {
    var before := EntriesOf(h, schemaType);
    var after := EntriesOf(RecordMapping(h, sourceColumn, targetField, schemaType, clientPattern, isUserCorrection), schemaType);
    var key := Normalize(sourceColumn);
    match FindPair(before, key, targetField)
    case Some(i) =>
      assert IsPair(after[i], key, targetField);
      forall a, b | 0 <= a < b < |after|
        ensures !IsPair(after[b], after[a].sourceColumn, after[a].targetField)
      {
        assert !IsPair(before[b], before[a].sourceColumn, before[a].targetField);
      }
    case None =>
      var n := |before|;
      assert IsPair(after[n], key, targetField);
      forall a, b | 0 <= a < b < |after|
        ensures !IsPair(after[b], after[a].sourceColumn, after[a].targetField)
      {
        if b == n {
          assert after[a] == before[a];
        }
      }
  }

  /** `is_blacklisted`: the normalised column, the field and the schema type
      all match a blacklist triple. */
  function IsBlacklisted(h: History, sourceColumn: string, targetField: string, schemaType: string): (b: bool)
    ensures var x := Banned(Normalize(sourceColumn), targetField, schemaType);
      b <==> exists i :: 0 <= i < |h.blacklist| && h.blacklist[i] == x
  {
    Listed(h.blacklist, Banned(Normalize(sourceColumn), targetField, schemaType))
  }

  function Listed(bl: seq<Banned>, x: Banned): (b: bool)
    ensures b <==> exists i :: 0 <= i < |bl| && bl[i] == x
  {
    if |bl| == 0 then false
    else if bl[0] == x then true
    else
      var rest := Listed(bl[1..], x);
      assert rest <==> exists i :: 1 <= i < |bl| && bl[i] == x by {
        if rest {
          var i :| 0 <= i < |bl[1..]| && bl[1..][i] == x;
          assert bl[i + 1] == x;
        }
      }
      rest
  }

  /** `add_to_blacklist`: appends the triple unless it is already there. */
  function AddToBlacklist(h: History, sourceColumn: string, targetField: string, schemaType: string): (r: History)
    ensures r.mappings == h.mappings
    ensures IsBlacklisted(r, sourceColumn, targetField, schemaType)
    ensures IsBlacklisted(h, sourceColumn, targetField, schemaType) ==> r == h
    ensures !IsBlacklisted(h, sourceColumn, targetField, schemaType) ==>
      r.blacklist == h.blacklist + [Banned(Normalize(sourceColumn), targetField, schemaType)]
  {
    if IsBlacklisted(h, sourceColumn, targetField, schemaType) then h
    else
      var r := History(h.mappings, h.blacklist + [Banned(Normalize(sourceColumn), targetField, schemaType)]);
      assert r.blacklist[|h.blacklist|] == Banned(Normalize(sourceColumn), targetField, schemaType);
      r
  }

  /** Blacklisting twice is blacklisting once. */
  lemma AddToBlacklistIdempotent(h: History, sourceColumn: string, targetField: string, schemaType: string)
    ensures var once := AddToBlacklist(h, sourceColumn, targetField, schemaType);
      AddToBlacklist(once, sourceColumn, targetField, schemaType) == once
  {
  }

  /** The blacklist never holds a triple twice. */
  lemma AddToBlacklistKeepsDistinct(h: History, sourceColumn: string, targetField: string, schemaType: string)
    requires Seqs.NoDup(h.blacklist)
    ensures Seqs.NoDup(AddToBlacklist(h, sourceColumn, targetField, schemaType).blacklist)
  {
    var x := Banned(Normalize(sourceColumn), targetField, schemaType);
    if !IsBlacklisted(h, sourceColumn, targetField, schemaType) {
      var r := h.blacklist + [x];
      forall i, j | 0 <= i < j < |r|
        ensures r[i] != r[j]
      {
        if j == |h.blacklist| {
          assert r[i] == h.blacklist[i];
        }
      }
    }
  }

  /** Blacklisting a column for a field also blacklists every spelling of
      the column with the same normal form. */
  lemma BlacklistBySpelling(h: History, a: string, b: string, targetField: string, schemaType: string)
    requires Normalize(a) == Normalize(b)
    ensures IsBlacklisted(AddToBlacklist(h, a, targetField, schemaType), b, targetField, schemaType)
  {
  }

  /** An entry survives the client filter unless both the filter and the
      entry's own pattern are set and they differ. */
  predicate Admits(clientPattern: string, e: Entry)
  {
    !(clientPattern != "" && e.clientPattern != "" && e.clientPattern != clientPattern)
  }

  function UseCount(e: Entry): real
  {
    e.useCount as real
  }

  function AdmittedBy(clientPattern: string): Entry -> bool
  {
    e => Admits(clientPattern, e)
  }

  /** `get_history_mappings`: the schema's entries the client filter
      admits, most used first (a stable sort). */
  function GetHistoryMappings(h: History, schemaType: string, clientPattern: string): (r: seq<Entry>)
    ensures Sorting.SortedDesc(r, UseCount)
    ensures forall e :: e in r <==> e in EntriesOf(h, schemaType) && Admits(clientPattern, e)
    ensures clientPattern == "" ==> multiset(r) == multiset(EntriesOf(h, schemaType))
  {
    var src := EntriesOf(h, schemaType);
    SortedKept(src, clientPattern);
    Sorting.SortDesc(Seqs.Filter(src, AdmittedBy(clientPattern)), UseCount)
  }

  lemma SortedKept(src: seq<Entry>, clientPattern: string)
    ensures var r := Sorting.SortDesc(Seqs.Filter(src, AdmittedBy(clientPattern)), UseCount);
      (forall e :: e in r <==> e in src && Admits(clientPattern, e)) &&
      (clientPattern == "" ==> multiset(r) == multiset(src))
  {
    var p := AdmittedBy(clientPattern);
    var kept := Seqs.Filter(src, p);
    var r := Sorting.SortDesc(kept, UseCount);
    forall e
      ensures e in r <==> e in src && Admits(clientPattern, e)
    {
      assert e in r <==> e in multiset(r);
      assert e in kept <==> e in multiset(kept);
      assert p(e) == Admits(clientPattern, e);
    }
    if clientPattern == "" {
      FilterAll(src, p);
    }
  }

  lemma {:induction false} FilterAll<T>(s: seq<T>, p: T -> bool)
    requires forall i :: 0 <= i < |s| ==> p(s[i])
    ensures Seqs.Filter(s, p) == s
  {
    if |s| > 0 {
      FilterAll(s[1..], p);
      assert s == [s[0]] + s[1..];
    }
  }

  /** Entries used equally often keep their stored order. */
  lemma GetHistoryMappingsStable(h: History, schemaType: string, clientPattern: string, k: real)
    ensures Sorting.WithKey(GetHistoryMappings(h, schemaType, clientPattern), UseCount, k) ==
      Sorting.WithKey(Seqs.Filter(EntriesOf(h, schemaType), AdmittedBy(clientPattern)), UseCount, k)
  {
    Sorting.SortDescStable(Seqs.Filter(EntriesOf(h, schemaType), AdmittedBy(clientPattern)), UseCount, k);
  }
}
