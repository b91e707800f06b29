/** Attribute snapshots: `clean_data_dict` turns a pandas row into a JSON-ready
    dictionary, dropping the listed columns. */
module Snapshot {
  import opened Values

  function CleanOpt(c: Option<Cell>): Option<JValue> {
    match c
    case Some(x) => Some(CleanCell(x))
    case None => None
  }

  /** The column names that survive the drop, in column order. */
  function KeptColumns(ks: seq<string>, exclude: seq<string>): (r: seq<string>)
    ensures forall k :: k in r <==> k in ks && k !in exclude
  {
    if ks == [] then []
    else if ks[0] in exclude then KeptColumns(ks[1..], exclude)
    else [ks[0]] + KeptColumns(ks[1..], exclude)
  }

  /** `clean_data_dict(row, exclude)`: the excluded columns are dropped, the others
      keep their order and have their cells made JSON-ready. Looking a key up in
      the snapshot is looking it up in the row and cleaning the cell, except for
      the excluded keys, which are absent. */
  function CleanDataDict(row: Row, exclude: seq<string>): (d: Dict)
    ensures |d| <= |row|
  {
    if row == [] then []
    else
      var rest := CleanDataDict(row[1..], exclude);
      if row[0].0 in exclude then rest
      else [(row[0].0, CleanCell(row[0].1))] + rest
  }

  /** The snapshot keeps the surviving columns in order, and looking a key up in
      it is looking it up in the row and cleaning the cell, except for the
      excluded keys, which are absent. */
  lemma {:induction false} CleanDataDictSpec(row: Row, exclude: seq<string>)
    ensures Keys(CleanDataDict(row, exclude)) == KeptColumns(Keys(row), exclude)
    ensures forall k :: Lookup(CleanDataDict(row, exclude), k) == if k in exclude then None else CleanOpt(Lookup(row, k))
  {
    if row != [] {
      CleanDataDictSpec(row[1..], exclude);
      var rest := CleanDataDict(row[1..], exclude);
      assert Keys(row) == [row[0].0] + Keys(row[1..]);
      if row[0].0 !in exclude {
        var d := [(row[0].0, CleanCell(row[0].1))] + rest;
        assert d[1..] == rest;
        assert Keys(d) == [row[0].0] + Keys(rest);
      }
    }
  }

  /** The snapshot of two column blocks side by side is the two snapshots side by side. */
  lemma {:induction false} CleanDataDictAppend(a: Row, b: Row, exclude: seq<string>)
    ensures CleanDataDict(a + b, exclude) == CleanDataDict(a, exclude) + CleanDataDict(b, exclude)
  {
    if a == [] {
      assert a + b == b;
    } else {
      assert (a + b)[0] == a[0];
      assert (a + b)[1..] == a[1..] + b;
      CleanDataDictAppend(a[1..], b, exclude);
      if a[0].0 !in exclude {
        var head := [(a[0].0, CleanCell(a[0].1))];
        calc {
          CleanDataDict(a + b, exclude);
          head + CleanDataDict(a[1..] + b, exclude);
          head + (CleanDataDict(a[1..], exclude) + CleanDataDict(b, exclude));
          (head + CleanDataDict(a[1..], exclude)) + CleanDataDict(b, exclude);
        }
      }
    }
  }

  /** Columns that are all excluded leave nothing in the snapshot. */
  lemma {:induction false} CleanDataDictAllExcluded(b: Row, exclude: seq<string>)
    requires forall i :: 0 <= i < |b| ==> b[i].0 in exclude
    ensures CleanDataDict(b, exclude) == []
  {
    if b != [] {
      CleanDataDictAllExcluded(b[1..], exclude);
    }
  }

  /** Appending excluded columns (the geometry columns) to a row does not change its snapshot. */
  lemma ExcludedColumnsInvisible(a: Row, b: Row, exclude: seq<string>)
    requires forall i :: 0 <= i < |b| ==> b[i].0 in exclude
    ensures CleanDataDict(a + b, exclude) == CleanDataDict(a, exclude)
  {
    CleanDataDictAppend(a, b, exclude);
    CleanDataDictAllExcluded(b, exclude);
  }
}
