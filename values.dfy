/** Scalar values, ordered dictionaries and the Python conversions the pipeline
    applies to them: truthiness, `str()`, `dict.get` and `dict[k] = v`.

    Two kinds of scalar occur. A `Cell` is a value read from a pandas row (a
    permit or road attribute, possibly NaN, a timestamp or a geometry); a
    `JValue` is what a JSON file holds after `clean_data_dict` and `json.dump`. */
module Values {

  datatype Option<+T> = None | Some(value: T) {
    function GetOr(default: T): T {
      match this
      case Some(v) => v
      case None => default
    }
  }

  /** A geometry, known only by its well-known-text form (`str(geom)`). */
  datatype Geom = Geom(wkt: string) {
    /** Shapely renders an empty geometry as `<KIND> EMPTY`. */
    predicate IsEmpty() {
      |wkt| >= 5 && wkt[|wkt| - 5..] == "EMPTY"
    }
  }

  /** A pandas timestamp: `isoformat()` joins date and time with 'T', `str()` with a space. */
  datatype Timestamp = Timestamp(date: string, time: string) {
    function Iso(): string { date + "T" + time }
    function Text(): string { date + " " + time }
  }

  /** A cell of a pandas row. */
  datatype Cell =
    | CNull                 // Python None
    | CNaN                  // a missing value stored as float NaN
    | CNaT                  // pandas' missing timestamp NaT, which is a `datetime`
    | CBool(b: bool)
    | CInt(i: int)
    | CStr(s: string)
    | CTime(t: Timestamp)
    | CGeom(g: Geom)

  /** A JSON scalar. */
  datatype JValue = JNull | JBool(b: bool) | JInt(i: int) | JStr(s: string)

  /** A pandas row: column names with their cells, in column order. */
  type Row = seq<(string, Cell)>

  /** A JSON object; Python dicts keep insertion order. */
  type Dict = seq<(string, JValue)>

  /** Python truthiness of a JSON scalar. */
  predicate Truthy(v: JValue) {
    match v
    case JNull => false
    case JBool(b) => b
    case JInt(i) => i != 0
    case JStr(s) => s != ""
  }

  /** Python truthiness of a row cell: NaN, NaT and timestamps are truthy, a
      geometry is truthy unless it is empty. */
  predicate CellTruthy(c: Cell) {
    match c
    case CNull => false
    case CNaN => true
    case CNaT => true
    case CBool(b) => b
    case CInt(i) => i != 0
    case CStr(s) => s != ""
    case CTime(_) => true
    case CGeom(g) => !g.IsEmpty()
  }

  function DigitChar(d: nat): char
    requires d < 10
  {
    (d + '0' as int) as char
  }

  /** The number a string of decimal digits denotes, most significant first. */
  function DigitsValue(s: string): nat
    requires forall k :: 0 <= k < |s| ==> '0' <= s[k] <= '9'
  {
    if s == [] then 0 else DigitsValue(s[..|s| - 1]) * 10 + (s[|s| - 1] as int - '0' as int)
  }

  /** `str(n)`: the decimal digits of `n`, most significant first, with no
      leading zero. */
  function NatToString(n: nat): (s: string)
    ensures |s| >= 1
    ensures forall k :: 0 <= k < |s| ==> '0' <= s[k] <= '9'
    ensures DigitsValue(s) == n
    ensures s[0] == '0' ==> s == "0"
  {
    if n < 10 then [DigitChar(n)] else NatToString(n / 10) + [DigitChar(n % 10)]
  }

  /** `str(i)` of a Python int. */
  function IntToString(i: int): string {
    if i < 0 then "-" + NatToString(-i) else NatToString(i)
  }

  /** `str(v)` of a JSON scalar as Python renders it. */
  function Str(v: JValue): string {
    match v
    case JNull => "None"
    case JBool(b) => if b then "True" else "False"
    case JInt(i) => IntToString(i)
    case JStr(s) => s
  }

  /** `str(c)` of a row cell as Python renders it. */
  function StrCell(c: Cell): string {
    match c
    case CNull => "None"
    case CNaN => "nan"
    case CNaT => "NaT"
    case CBool(b) => if b then "True" else "False"
    case CInt(i) => IntToString(i)
    case CStr(s) => s
    case CTime(t) => t.Text()
    case CGeom(g) => g.wkt
  }

  /** The JSON value `clean_data_dict` (and then `json.dump(default=str)`) makes of
      a cell: timestamps become their ISO text, and so does NaT (the text "NaT"),
      since the `datetime` test comes before the missing-value test; NaN and None
      become null, and a geometry is written as its text. */
  function CleanCell(c: Cell): JValue {
    match c
    case CNull => JNull
    case CNaN => JNull
    case CNaT => JStr("NaT")
    case CBool(b) => JBool(b)
    case CInt(i) => JInt(i)
    case CStr(s) => JStr(s)
    case CTime(t) => JStr(t.Iso())
    case CGeom(g) => JStr(g.wkt)
  }

  /** The JSON value a cell compares equal to under Python `==`, if any.
      NaN equals nothing (not even another NaN read from a row), and NaT, a
      timestamp or a geometry equals no JSON scalar. */
  function KeyOf(c: Cell): (r: Option<JValue>)
    ensures r.Some? ==> r.value == CleanCell(c)
    ensures r.Some? ==> (Truthy(r.value) <==> CellTruthy(c))
    ensures r.Some? ==> Str(r.value) == StrCell(c)
    ensures c.CNaN? || c.CNaT? ==> r.None?
  {
    match c
    case CNull => Some(JNull)
    case CBool(b) => Some(JBool(b))
    case CInt(i) => Some(JInt(i))
    case CStr(s) => Some(JStr(s))
    case _ => None
  }

  /** No value occurs twice. */
  predicate NoDuplicates<T(==)>(s: seq<T>) {
    forall a, b :: 0 <= a < b < |s| ==> s[a] != s[b]
  }

  /** Prepending an element that is not there keeps a sequence free of repeats. */
  lemma NoDuplicatesCons<T>(x: T, t: seq<T>)
    requires x !in t && NoDuplicates(t)
    ensures NoDuplicates([x] + t)
    ensures forall y :: y in [x] + t <==> y == x || y in t
  {
    var s := [x] + t;
    assert forall a :: 0 < a < |s| ==> s[a] == t[a - 1];
  }

  /** The keys of an ordered dictionary, in order. */
  function Keys<V>(d: seq<(string, V)>): (ks: seq<string>)
    ensures |ks| == |d|
    ensures forall k :: 0 <= k < |d| ==> ks[k] == d[k].0
  {
    if d == [] then [] else [d[0].0] + Keys(d[1..])
  }

  predicate DistinctKeys<V>(d: seq<(string, V)>) {
    forall i, j :: 0 <= i < j < |d| ==> d[i].0 != d[j].0
  }

  /** The value stored under `k`: that of the first entry with key `k`. */
  function Lookup<V>(d: seq<(string, V)>, k: string): (r: Option<V>)
    ensures r.Some? <==> k in Keys(d)
  {
    if d == [] then None
    else if d[0].0 == k then Some(d[0].1)
    else Lookup(d[1..], k)
  }

  /** `d.get(k)`: a missing key reads as None, that is, JSON null. */
  function Get(d: Dict, k: string): JValue {
    Lookup(d, k).GetOr(JNull)
  }

  /** `row.get(k)` on a pandas row: a missing column reads as None. */
  function GetCell(row: Row, k: string): Cell {
    Lookup(row, k).GetOr(CNull)
  }

  /** `d[k] = v`: an existing key keeps its position and takes the new value;
      a new key is appended. */
  function Set<V>(d: seq<(string, V)>, k: string, v: V): (r: seq<(string, V)>)
    ensures Lookup(r, k) == Some(v)
  {
    if d == [] then [(k, v)]
    else if d[0].0 == k then [(k, v)] + d[1..]
    else
      var rest := Set(d[1..], k, v);
      var r := [d[0]] + rest;
      assert r[1..] == rest;
      r
  }

  /** Setting `k` leaves the value of any other key alone. */
  lemma {:induction false} SetOther<V>(d: seq<(string, V)>, k: string, v: V, other: string)
    requires other != k
    ensures Lookup(Set(d, k, v), other) == Lookup(d, other)
  {
    if d != [] && d[0].0 != k {
      SetOther(d[1..], k, v, other);
      var r := Set(d, k, v);
      assert r[1..] == Set(d[1..], k, v);
    } else if d != [] {
      assert Set(d, k, v)[1..] == d[1..];
    }
  }

  /** Setting `k` leaves every other key's value alone, and adds `k` to the keys
      at the end when it was missing. */
  lemma SetSpec<V>(d: seq<(string, V)>, k: string, v: V)
    ensures forall k' :: k' != k ==> Lookup(Set(d, k, v), k') == Lookup(d, k')
    ensures Keys(Set(d, k, v)) == if k in Keys(d) then Keys(d) else Keys(d) + [k]
  {
    forall k' | k' != k
      ensures Lookup(Set(d, k, v), k') == Lookup(d, k')
    {
      SetOther(d, k, v, k');
    }
    SetKeys(d, k, v);
  }

  lemma {:induction false} SetKeys<V>(d: seq<(string, V)>, k: string, v: V)
    ensures Keys(Set(d, k, v)) == if k in Keys(d) then Keys(d) else Keys(d) + [k]
  {
    var r := Set(d, k, v);
    if d == [] {
    } else if d[0].0 == k {
      assert r[1..] == d[1..];
      assert Keys(r) == [k] + Keys(d[1..]);
    } else {
      SetKeys(d[1..], k, v);
      var rest := Set(d[1..], k, v);
      assert r[1..] == rest;
      assert Keys(r) == [d[0].0] + Keys(rest);
      assert Keys(d) == [d[0].0] + Keys(d[1..]);
    }
  }

  /** Moving one element across the seam of a concatenation. */
  lemma AppendAssoc<T>(a: seq<T>, x: T, b: seq<T>)
    ensures a + ([x] + b) == (a + [x]) + b
  {
  }

  /** Indexing the tail is indexing the sequence one place further on. */
  lemma TailShift<T>(s: seq<T>)
    requires s != []
    ensures forall i :: 1 <= i < |s| ==> s[i] == s[1..][i - 1]
  {
  }

  /** A prefix one longer is the shorter prefix and the next element. */
  lemma TakeSnoc<T>(s: seq<T>, i: nat)
    requires i < |s|
    ensures s[..i + 1] == s[..i] + [s[i]]
  {
  }

  /** The position of the first occurrence of `x` in `s` (`list.index`). */
  function IndexOf<T(==)>(s: seq<T>, x: T): (i: nat)
    requires x in s
    ensures i < |s| && s[i] == x
    ensures forall j :: 0 <= j < i ==> s[j] != x
  {
    if s[0] == x then 0
    else
      assert x in s[1..];
      var i := 1 + IndexOf(s[1..], x);
      assert forall j :: 1 <= j < i ==> s[j] == s[1..][j - 1];
      i
  }

  /** A position holding `x` with no `x` before it is the first occurrence. */
  lemma IndexOfUnique<T>(s: seq<T>, x: T, i: nat)
    requires i < |s| && s[i] == x
    requires forall j :: 0 <= j < i ==> s[j] != x
    ensures IndexOf(s, x) == i
  {
  }

  /** Appending leaves the first occurrences of earlier elements where they were;
      a new element first occurs at the end. */
  lemma IndexOfSnoc<T>(s: seq<T>, y: T, x: T)
    requires x in s + [y]
    ensures IndexOf(s + [y], x) == if x in s then IndexOf(s, x) else |s|
  {
    var t := s + [y];
    if x in s {
      var i := IndexOf(s, x);
      assert t[i] == x;
      assert forall j :: 0 <= j < i ==> t[j] == s[j];
      IndexOfUnique(t, x, i);
    } else {
      assert forall j :: 0 <= j < |s| ==> t[j] == s[j];
      IndexOfUnique(t, x, |s|);
    }
  }

  /** `d.get(k)` reads the value of the first entry whose key is `k`, and
      nothing when no entry has that key. */
  lemma {:induction false} LookupFirst<V>(d: seq<(string, V)>, k: string)
    ensures k in Keys(d) ==> Lookup(d, k) == Some(d[IndexOf(Keys(d), k)].1)
    ensures k !in Keys(d) ==> Lookup(d, k) == None
  {
    if d != [] && k in Keys(d) {
      var ks := Keys(d);
      if d[0].0 == k {
        IndexOfUnique(ks, k, 0);
      } else {
        var rest := Keys(d[1..]);
        assert forall j :: 0 <= j < |rest| ==> rest[j] == ks[j + 1];
        assert k in rest by {
          var i :| 0 <= i < |ks| && ks[i] == k;
          assert i != 0;
          assert rest[i - 1] == k;
        }
        LookupFirst(d[1..], k);
        var i := IndexOf(rest, k);
        IndexOfUnique(ks, k, i + 1);
      }
    }
  }
}
