/**
 * The persisted message map: source message id to forwarded message id,
 * kept in memory as a Python dict and written to a JSON file whose keys are
 * the decimal text of the integer ids.
 */
module MapStore {
  import opened Wrappers
  import opened Decimal

  /** A decoded JSON value as `json.load` hands it to the program. */
  datatype Json =
    | JNull
    | JBool(b: bool)
    | JInt(i: int)
      /** A finite number with a fraction or exponent, held as the integer `int()` truncates it to. */
    | JFloat(truncated: int)
      /** NaN or an infinity, which `int()` refuses. */
    | JNonFinite
    | JString(s: string)
    | JArray(elements: seq<Json>)
      /** An object's members as the file lists them, in order; a name may repeat. */
    | JObject(members: seq<(string, Json)>)

  /** What stands at the map file's location. */
  datatype StoredFile =
    | Missing
      /** The file exists but cannot be opened or is not JSON. */
    | Unparsable
    | Parsed(doc: Json)

  /**
   * How `save_map` ends. `open(MAP_FILE, "w")` either raises before it
   * touches the file, or truncates it; after that a write of `json.dump`,
   * or the flush when the `with` block closes, may still raise. `whole` says
   * whether the whole text had reached the file by then.
   */
  datatype SaveResult = Saved | OpenRaised | WriteRaised(whole: bool)

  /** A Python dict from int to int: its entries and its keys in insertion order. */
  datatype Dict = Dict(keys: seq<int>, entries: map<int, int>)

  predicate Distinct(s: seq<int>) {
    forall i, j :: 0 <= i < j < |s| ==> s[i] != s[j]
  }

  /** The key order lists every key of the entries exactly once. */
  ghost predicate ValidDict(d: Dict) {
    Distinct(d.keys) && forall k :: k in d.entries <==> k in d.keys
  }

  const EmptyDict: Dict := Dict([], map[])

  /** `d[k] = v`: overwriting keeps a key's position, a new key goes last. */
  function Put(d: Dict, k: int, v: int): (r: Dict)
    requires ValidDict(d)
    ensures ValidDict(r)
    ensures r.entries == d.entries[k := v]
    ensures k in d.entries ==> r.keys == d.keys
    ensures k !in d.entries ==> r.keys == d.keys + [k]
  {
    if k in d.entries then Dict(d.keys, d.entries[k := v]) else Dict(d.keys + [k], d.entries[k := v])
  }

  /** Python's `int(v)` on a decoded JSON value; None where it raises. */
  function IntOf(v: Json): (r: Option<int>)
    ensures r.None? <==> v.JNull? || v.JNonFinite? || v.JArray? || v.JObject? || (v.JString? && ParseInt(v.s).None?)
    ensures v.JBool? ==> r == Some(if v.b then 1 else 0)
    ensures v.JString? ==> r == ParseInt(v.s)
  {
    match v
    case JInt(i) => Some(i)
    case JBool(b) => Some(if b then 1 else 0)
    case JFloat(t) => Some(t)
    case JString(s) => ParseInt(s)
    case _ => None
  }

  /** No name occurs twice among the members. */
  predicate DistinctNames(ms: seq<(string, Json)>) {
    forall i, j :: 0 <= i < j < |ms| ==> ms[i].0 != ms[j].0
  }

  /**
   * `d[k] = v` on the string-keyed dict `json.load` builds: a name already
   * present keeps its position and takes the new value, a new name goes last.
   */
  function ObjectPut(ms: seq<(string, Json)>, k: string, v: Json): (r: seq<(string, Json)>)
    ensures (k, v) in r
    decreases |ms|
  {
    if ms == [] then [(k, v)]
    else if ms[0].0 == k then [(k, v)] + ms[1..]
    else [ms[0]] + ObjectPut(ms[1..], k, v)
  }

  /** Setting a name adds only the new member. */
  lemma {:induction false} ObjectPutMembers(ms: seq<(string, Json)>, k: string, v: Json)
    ensures forall p :: p in ObjectPut(ms, k, v) ==> p == (k, v) || p in ms
    decreases |ms|
  {
    if ms != [] && ms[0].0 != k {
      ObjectPutMembers(ms[1..], k, v);
      assert forall p :: p in ms[1..] ==> p in ms;
    }
  }

  /** Setting a name keeps every member of another name. */
  lemma {:induction false} ObjectPutKeeps(ms: seq<(string, Json)>, k: string, v: Json)
    ensures forall p :: p in ms && p.0 != k ==> p in ObjectPut(ms, k, v)
    decreases |ms|
  {
    if ms != [] && ms[0].0 != k {
      ObjectPutKeeps(ms[1..], k, v);
      assert forall p :: p in ms ==> p == ms[0] || p in ms[1..];
    }
  }

  /** Setting a new name appends it. */
  lemma {:induction false} ObjectPutAbsent(ms: seq<(string, Json)>, k: string, v: Json)
    requires forall i :: 0 <= i < |ms| ==> ms[i].0 != k
    ensures ObjectPut(ms, k, v) == ms + [(k, v)]
    decreases |ms|
  {
    if ms != [] {
      ObjectPutAbsent(ms[1..], k, v);
      assert ms == [ms[0]] + ms[1..];
    }
  }

  /** Setting a name keeps the names distinct. */
  lemma {:induction false} ObjectPutDistinct(ms: seq<(string, Json)>, k: string, v: Json)
    requires DistinctNames(ms)
    ensures DistinctNames(ObjectPut(ms, k, v))
    decreases |ms|
  {
    var r := ObjectPut(ms, k, v);
    if ms == [] {
    } else if ms[0].0 == k {
      assert forall i :: 0 <= i < |r| ==> r[i].0 == ms[i].0;
    } else {
      var rest := ObjectPut(ms[1..], k, v);
      ObjectPutDistinct(ms[1..], k, v);
      ObjectPutMembers(ms[1..], k, v);
      forall j | 0 <= j < |rest|
        ensures rest[j].0 != ms[0].0
      {
        assert rest[j] in rest;
        if rest[j] != (k, v) {
          var t :| 0 <= t < |ms[1..]| && ms[1..][t] == rest[j];
          assert ms[1 + t] == rest[j];
        }
      }
      assert r == [ms[0]] + rest;
    }
  }

  /**
   * The dict `json.load` makes of an object's members: one item per name, at
   * the position where the name first occurs, holding its last value.
   */
  function ObjectItems(ms: seq<(string, Json)>): (r: seq<(string, Json)>)
    ensures DistinctNames(r)
    ensures forall p :: p in r ==> p in ms
    decreases |ms|
  {
    if ms == [] then []
    else
      var init := ms[..|ms| - 1];
      var items := ObjectItems(init);
      var last := ms[|ms| - 1];
      ObjectPutDistinct(items, last.0, last.1);
      ObjectPutMembers(items, last.0, last.1);
      assert forall p :: p in init ==> p in ms;
      ObjectPut(items, last.0, last.1)
  }

  /**
   * `{int(k): int(v) for k, v in raw.items()}`: None when any conversion
   * raises; a later member whose key converts to the same integer overwrites
   * an earlier one.
   */
  function LoadMembers(ms: seq<(string, Json)>): (r: Option<Dict>)
    ensures r.Some? ==> ValidDict(r.value)
    decreases |ms|
  {
    if ms == [] then Some(EmptyDict)
    else
      match LoadMembers(ms[..|ms| - 1])
      case None => None
      case Some(d) =>
        var (key, value) := ms[|ms| - 1];
        match (ParseInt(key), IntOf(value))
        case (Some(k), Some(v)) => Some(Put(d, k, v))
        case _ => None
  }

  /** `load_map()`: a missing, unreadable or malformed file all give the empty map. */
  function LoadMap(f: StoredFile): (d: Dict)
    ensures ValidDict(d)
    ensures !(f.Parsed? && f.doc.JObject?) ==> d == EmptyDict
  {
    match f
    case Parsed(JObject(ms)) => LoadMembers(ObjectItems(ms)).GetOr(EmptyDict)
    case _ => EmptyDict
  }

  /** The members `save_map` writes for the given keys, in that order. */
  function SaveMembers(ks: seq<int>, m: map<int, int>): (r: seq<(string, Json)>)
    requires forall k :: k in ks ==> k in m
    ensures |r| == |ks|
    ensures forall i :: 0 <= i < |ks| ==> r[i] == (IntToString(ks[i]), JInt(m[ks[i]]))
    decreases |ks|
  {
    if ks == [] then []
    else SaveMembers(ks[..|ks| - 1], m) + [(IntToString(ks[|ks| - 1]), JInt(m[ks[|ks| - 1]]))]
  }

  /** `save_map(mapping)`: one member per entry, keyed by `str(k)`, in dict order. */
  function SaveMap(d: Dict): (doc: Json)
    requires ValidDict(d)
    ensures doc.JObject? && |doc.members| == |d.keys|
    ensures forall i :: 0 <= i < |d.keys| ==> doc.members[i] == (IntToString(d.keys[i]), JInt(d.entries[d.keys[i]]))
  {
    JObject(SaveMembers(d.keys, d.entries))
  }

  function Restrict(m: map<int, int>, ks: seq<int>): map<int, int> {
    map k | k in m && k in ks :: m[k]
  }

  /** Whether `int()` accepts both the key and the value of a member. */
  predicate MemberConverts(m: (string, Json)) {
    ParseInt(m.0).Some? && IntOf(m.1).Some?
  }

  lemma LoadMembersSnoc(ms: seq<(string, Json)>)
    requires ms != []
    ensures LoadMembers(ms).Some? <==> LoadMembers(ms[..|ms| - 1]).Some? && MemberConverts(ms[|ms| - 1])
  {
  }

  /** A member list loads iff every key and every value converts. */
  lemma {:induction false} LoadMembersSucceedsIff(ms: seq<(string, Json)>)
    ensures LoadMembers(ms).Some? <==> forall i :: 0 <= i < |ms| ==> MemberConverts(ms[i])
    decreases |ms|
  {
    if ms != [] {
      LoadMembersSucceedsIff(ms[..|ms| - 1]);
      LoadMembersSnoc(ms);
      AllConvertSnoc(ms);
    }
  }

  predicate AllConvert(ms: seq<(string, Json)>) {
    forall i :: 0 <= i < |ms| ==> MemberConverts(ms[i])
  }

  lemma AllConvertSnoc(ms: seq<(string, Json)>)
    requires ms != []
    ensures AllConvert(ms) <==> AllConvert(ms[..|ms| - 1]) && MemberConverts(ms[|ms| - 1])
  {
    var init := ms[..|ms| - 1];
    assert forall i :: 0 <= i < |init| ==> init[i] == ms[i];
  }

  /** A missing file, an unreadable one, or one whose content is not a JSON object loads as the empty map. */
  lemma LoadOfCorruptIsEmpty(f: StoredFile)
    requires !(f.Parsed? && f.doc.JObject?)
    ensures LoadMap(f) == EmptyDict
  {
  }

  /** The last member with a given name is an item of the decoded dict. */
  lemma {:induction false} LastOfNameIsItem(ms: seq<(string, Json)>, i: int)
    requires 0 <= i < |ms|
    requires forall j :: i < j < |ms| ==> ms[j].0 != ms[i].0
    ensures ms[i] in ObjectItems(ms)
    decreases |ms|
  {
    var init, last := ms[..|ms| - 1], ms[|ms| - 1];
    assert ObjectItems(ms) == ObjectPut(ObjectItems(init), last.0, last.1);
    if i < |ms| - 1 {
      assert init[i] == ms[i];
      LastOfNameIsItem(init, i);
      ObjectPutKeeps(ObjectItems(init), last.0, last.1);
    } else {
      assert ms[i] == (last.0, last.1);
    }
  }

  /** A decoded dict without repeated names is the member list itself. */
  lemma {:induction false} ObjectItemsOfDistinct(ms: seq<(string, Json)>)
    requires DistinctNames(ms)
    ensures ObjectItems(ms) == ms
    decreases |ms|
  {
    if ms != [] {
      var init := ms[..|ms| - 1];
      assert DistinctNames(init);
      ObjectItemsOfDistinct(init);
      assert forall i :: 0 <= i < |init| ==> init[i].0 != ms[|ms| - 1].0;
      ObjectPutAbsent(init, ms[|ms| - 1].0, ms[|ms| - 1].1);
      assert init + [ms[|ms| - 1]] == ms;
    }
  }

  /**
   * One member whose key or value `int()` refuses discards the whole file,
   * unless a later member with the same name replaces its value.
   */
  lemma LoadOfBadMemberIsEmpty(ms: seq<(string, Json)>, i: int)
    requires 0 <= i < |ms|
    requires !MemberConverts(ms[i])
    requires forall j :: i < j < |ms| ==> ms[j].0 != ms[i].0
    ensures LoadMap(Parsed(JObject(ms))) == EmptyDict
  {
    var items := ObjectItems(ms);
    LastOfNameIsItem(ms, i);
    var j :| 0 <= j < |items| && items[j] == ms[i];
    LoadMembersSucceedsIff(items);
  }

  lemma RepeatedNameItems()
    ensures ObjectItems([("1", JString("x")), ("1", JInt(5))]) == [("1", JInt(5))]
  {
    var ms := [("1", JString("x")), ("1", JInt(5))];
    assert ms[..1] == [("1", JString("x"))];
    assert ObjectItems(ms[..1]) == [("1", JString("x"))];
  }

  lemma ParseIntOfOne()
    ensures ParseInt("1") == Some(1)
  {
    ParseIntOfIntToString(1);
    assert IntToString(1) == "1";
  }

  lemma LoadSingleMember()
    ensures LoadMembers([("1", JInt(5))]) == Some(Dict([1], map[1 := 5]))
  {
    var ms := [("1", JInt(5))];
    assert ms[..0] == [];
    assert LoadMembers(ms[..0]) == Some(EmptyDict);
    ParseIntOfOne();
    assert ms[0].0 == "1" && IntOf(ms[0].1) == Some(5);
    assert Put(EmptyDict, 1, 5) == Dict([1], map[1 := 5]);
  }

  /** A repeated name keeps its last value: `{"1": "x", "1": 5}` loads as `{1: 5}`. */
  lemma RepeatedNameKeepsLastValue()
    ensures LoadMap(Parsed(JObject([("1", JString("x")), ("1", JInt(5))]))) == Dict([1], map[1 := 5])
  {
    RepeatedNameItems();
    LoadSingleMember();
  }

  lemma RestrictSnoc(m: map<int, int>, init: seq<int>, last: int)
    requires last in m
    ensures Restrict(m, init + [last]) == Restrict(m, init)[last := m[last]]
  {
    var a, b := Restrict(m, init + [last]), Restrict(m, init)[last := m[last]];
    assert forall k :: k in a <==> k in b;
    assert a.Keys == b.Keys;
  }

  lemma DistinctSnoc(ks: seq<int>)
    requires |ks| > 0 && Distinct(ks)
    ensures Distinct(ks[..|ks| - 1]) && ks[|ks| - 1] !in ks[..|ks| - 1]
  {
    var init := ks[..|ks| - 1];
    assert forall i :: 0 <= i < |init| ==> init[i] == ks[i];
  }

  lemma {:induction false} LoadSavedMembers(ks: seq<int>, m: map<int, int>)
    requires Distinct(ks)
    requires forall k :: k in ks ==> k in m
    ensures LoadMembers(SaveMembers(ks, m)) == Some(Dict(ks, Restrict(m, ks)))
    decreases |ks|
  {
    if ks != [] {
      var init, last := ks[..|ks| - 1], ks[|ks| - 1];
      assert ks == init + [last];
      DistinctSnoc(ks);
      LoadSavedMembers(init, m);
      var saved := SaveMembers(ks, m);
      assert saved[..|saved| - 1] == SaveMembers(init, m);
      assert saved[|saved| - 1] == (IntToString(last), JInt(m[last]));
      ParseIntOfIntToString(last);
      var r := Restrict(m, init);
      assert last !in r;
      assert LoadMembers(saved) == Some(Put(Dict(init, r), last, m[last]));
      RestrictSnoc(m, init, last);
    }
  }

  /** `str()` of distinct keys gives distinct member names. */
  lemma SavedNamesAreDistinct(ks: seq<int>, m: map<int, int>)
    requires Distinct(ks)
    requires forall k :: k in ks ==> k in m
    ensures DistinctNames(SaveMembers(ks, m))
  {
    var ms := SaveMembers(ks, m);
    forall i, j | 0 <= i < j < |ms|
      ensures ms[i].0 != ms[j].0
    {
      IntToStringInjective(ks[i], ks[j]);
    }
  }

  /** Loading what `save_map` wrote gives back the same dict, entries and key order. */
  lemma SaveLoadRoundTrip(d: Dict)
    requires ValidDict(d)
    ensures LoadMap(Parsed(SaveMap(d))) == d
  {
    SavedNamesAreDistinct(d.keys, d.entries);
    ObjectItemsOfDistinct(SaveMembers(d.keys, d.entries));
    LoadSavedMembers(d.keys, d.entries);
    RestrictToAllKeys(d);
  }

  lemma RestrictToAllKeys(d: Dict)
    requires ValidDict(d)
    ensures Restrict(d.entries, d.keys) == d.entries
  {
    var r := Restrict(d.entries, d.keys);
    assert forall k :: k in r <==> k in d.entries;
    assert r.Keys == d.entries.Keys;
  }

  /** What stands at the map file's location after `save_map(d)` ended as `save`. */
  function FileAfterSave(disk: StoredFile, d: Dict, save: SaveResult): StoredFile
    requires ValidDict(d)
  {
    match save
    case OpenRaised => disk
    case WriteRaised(whole) =>
      // An empty or cut-off object text is not a JSON document.
      if whole then Parsed(SaveMap(d)) else Unparsable
    case Saved => Parsed(SaveMap(d))
  }

  /**
   * What the next start loads after `save_map(d)`: `d` itself once the text
   * is whole, the old content when `open` raised, and the empty map when the
   * truncated file was left incomplete: every mapping is lost.
   */
  lemma LoadAfterSave(disk: StoredFile, d: Dict, save: SaveResult)
    requires ValidDict(d)
    ensures LoadMap(FileAfterSave(disk, d, save)) ==
      match save
      case OpenRaised => LoadMap(disk)
      case WriteRaised(whole) => if whole then d else EmptyDict
      case Saved => d
  {
    if save != OpenRaised {
      SaveLoadRoundTrip(d);
    }
  }

  /** The in-memory message map together with the file it is persisted to. */
  class MessageMap {
    var dict: Dict
    var disk: StoredFile

    ghost predicate Valid()
      reads this
    {
      ValidDict(dict)
    }

    /** `message_map = load_map()` at start-up. */
    constructor Open(file: StoredFile)
      ensures Valid()
      ensures dict == LoadMap(file) && disk == file
    {
      dict := LoadMap(file);
      disk := file;
    }

    /** `message_map.get(id)`. */
    function Get(id: int): (r: Option<int>)
      reads this
      ensures r.Some? <==> id in dict.entries
      ensures r.Some? ==> r.value == dict.entries[id]
    {
      if id in dict.entries then Some(dict.entries[id]) else None
    }

    /**
     * The post-send update: when `sentId` is truthy, set
     * `message_map[messageId] = sentId` and rewrite the file. `save` is how
     * the write ends; when it raises the in-memory entry stays, and the file
     * is as far as the write got. `ok` is false exactly when the write raised.
     */
    method Record(messageId: int, sentId: Option<int>, save: SaveResult) returns (ok: bool)
      requires Valid()
      modifies this
      ensures Valid()
      ensures ok == (!Truthy(sentId) || save.Saved?)
      ensures dict == if Truthy(sentId) then Put(old(dict), messageId, sentId.value) else old(dict)
      ensures disk == if Truthy(sentId) then FileAfterSave(old(disk), dict, save) else old(disk)
      ensures Truthy(sentId) && (save.Saved? || save == WriteRaised(true)) ==> LoadMap(disk) == dict
      ensures Truthy(sentId) && save == WriteRaised(false) ==> LoadMap(disk) == EmptyDict
    {
      ok := true;
      if Truthy(sentId) {
        dict := Put(dict, messageId, sentId.value);
        match save {
          case Saved =>
            disk := Parsed(SaveMap(dict));
          case OpenRaised =>
            ok := false;
          case WriteRaised(whole) =>
            disk := if whole then Parsed(SaveMap(dict)) else Unparsable;
            ok := false;
        }
        LoadAfterSave(old(disk), dict, save);
      }
    }
  }
}
