/**
 * The row dicts full-system.py fills and `write_to_excel` reads back by
 * header: a first key holding the file name, then for each variant a name
 * key and a reason key, each holding one of the variant's two cells. Kept
 * generic in the key type; the report instantiates it with strings.
 */
module ReportRows {
  /**
   * The dict once the cell pairs are written into it in order, pair j's
   * first cell under names[j] and its second under keys[j].
   */
  function RowOf<K>(first: K, name: string, names: seq<K>, keys: seq<K>, cells: seq<(string, string)>): (row: map<K, string>)
    requires |cells| <= |names| == |keys|
    ensures first in row
  {
    if cells == [] then map[first := name]
    else
      var c := cells[|cells| - 1];
      RowOf(first, name, names, keys, cells[..|cells| - 1])[names[|cells| - 1] := c.0][keys[|cells| - 1] := c.1]
  }

  /** Writing one more pair updates the two keys of the next position. */
  lemma RowOfSnoc<K>(first: K, name: string, names: seq<K>, keys: seq<K>, cells: seq<(string, string)>, c: (string, string))
    requires |cells| < |names| == |keys|
    ensures RowOf(first, name, names, keys, cells + [c])
         == RowOf(first, name, names, keys, cells)[names[|cells|] := c.0][keys[|cells|] := c.1]
  {
    assert (cells + [c])[..|cells|] == cells;
  }

  /** The header list: each name followed by its reason key. */
  function HeaderPairs<K>(names: seq<K>, keys: seq<K>): (hs: seq<K>)
    requires |names| == |keys|
    ensures |hs| == 2 * |names|
    ensures forall j :: 0 <= j < |names| ==> hs[2 * j] == names[j] && hs[2 * j + 1] == keys[j]
  {
    if names == [] then [] else [names[0], keys[0]] + HeaderPairs(names[1..], keys[1..])
  }

  /** `[row.get(header, "") for header in headers]`. */
  function Cells<K>(row: map<K, string>, headers: seq<K>): (cs: seq<string>)
    ensures |cs| == |headers|
    ensures forall i :: 0 <= i < |headers| ==> cs[i] == if headers[i] in row then row[headers[i]] else ""
  {
    if headers == [] then [] else [if headers[0] in row then row[headers[0]] else ""] + Cells(row, headers[1..])
  }

  /** No two keys of a row coincide. */
  predicate DistinctKeys<K(==)>(first: K, names: seq<K>, keys: seq<K>)
    requires |names| == |keys|
  {
    && (forall j, k :: 0 <= j < k < |names| ==> names[j] != names[k] && keys[j] != keys[k])
    && (forall j, k :: 0 <= j < |names| && 0 <= k < |names| ==> names[j] != keys[k])
    && (forall j :: 0 <= j < |names| ==> first != names[j] && first != keys[j])
  }

  /** With distinct keys, the dict holds the name and, for each pair written, both of its cells. */
  lemma {:induction false} RowLookup<K>(first: K, name: string, names: seq<K>, keys: seq<K>, cells: seq<(string, string)>)
    requires |cells| <= |names| == |keys| && DistinctKeys(first, names, keys)
    ensures first in RowOf(first, name, names, keys, cells) && RowOf(first, name, names, keys, cells)[first] == name
    ensures forall j :: 0 <= j < |cells| ==>
              && names[j] in RowOf(first, name, names, keys, cells) && RowOf(first, name, names, keys, cells)[names[j]] == cells[j].0
              && keys[j] in RowOf(first, name, names, keys, cells) && RowOf(first, name, names, keys, cells)[keys[j]] == cells[j].1
  {
    if cells != [] {
      RowLookup(first, name, names, keys, cells[..|cells| - 1]);
    }
  }

  /** The dict holds the two keys of each pair written, and no key but those and the first. */
  lemma {:induction false} RowOfKeys<K>(first: K, name: string, names: seq<K>, keys: seq<K>, cells: seq<(string, string)>)
    requires |cells| <= |names| == |keys|
    ensures forall j :: 0 <= j < |cells| ==> names[j] in RowOf(first, name, names, keys, cells) && keys[j] in RowOf(first, name, names, keys, cells)
    ensures forall k :: k in RowOf(first, name, names, keys, cells) ==>
              k == first || exists j :: 0 <= j < |cells| && (k == names[j] || k == keys[j])
  {
    if cells != [] {
      var n := |cells| - 1;
      RowOfKeys(first, name, names, keys, cells[..n]);
      forall k | k in RowOf(first, name, names, keys, cells)
        ensures k == first || exists j :: 0 <= j < |cells| && (k == names[j] || k == keys[j])
      {
        if k != names[n] && k != keys[n] {
          assert k in RowOf(first, name, names, keys, cells[..n]);
        }
      }
    }
  }

  /** Reading a full row back by the headers gives the name, then every pair's two cells in turn. */
  lemma RowCells<K>(first: K, name: string, names: seq<K>, keys: seq<K>, cells: seq<(string, string)>)
    requires |cells| == |names| == |keys| && DistinctKeys(first, names, keys)
    ensures var cs := Cells(RowOf(first, name, names, keys, cells), [first] + HeaderPairs(names, keys));
            && |cs| == 1 + 2 * |names| && cs[0] == name
            && forall j :: 0 <= j < |names| ==> cs[1 + 2 * j] == cells[j].0 && cs[2 + 2 * j] == cells[j].1
  {
    RowLookup(first, name, names, keys, cells);
    var row := RowOf(first, name, names, keys, cells);
    var headers := [first] + HeaderPairs(names, keys);
    var cs := Cells(row, headers);
    assert cs[0] == name;
    forall j | 0 <= j < |names|
      ensures cs[1 + 2 * j] == cells[j].0 && cs[2 + 2 * j] == cells[j].1
    {
      assert headers[1 + 2 * j] == HeaderPairs(names, keys)[2 * j] == names[j];
      assert headers[2 + 2 * j] == HeaderPairs(names, keys)[2 * j + 1] == keys[j];
    }
  }

  /** `f"{name} Reason"`. */
  function ReasonKey(name: string): string { name + " Reason" }

  /** The reason key of each of the names. */
  function ReasonKeys(names: seq<string>): (keys: seq<string>)
    ensures |keys| == |names| && forall j :: 0 <= j < |names| ==> keys[j] == ReasonKey(names[j])
  {
    if names == [] then [] else [ReasonKey(names[0])] + ReasonKeys(names[1..])
  }

  /**
   * Distinct names, each longer than the first key by one to seven
   * characters, give distinct keys: every reason key is longer than every name.
   */
  lemma DistinctKeysFromLengths(first: string, names: seq<string>)
    requires forall j, k :: 0 <= j < k < |names| ==> names[j] != names[k]
    requires forall j :: 0 <= j < |names| ==> |first| < |names[j]| <= |first| + 7
    ensures DistinctKeys(first, names, ReasonKeys(names))
  {
    forall j, k | 0 <= j < k < |names|
      ensures ReasonKey(names[j]) != ReasonKey(names[k])
    {
      assert names[j] == ReasonKey(names[j])[..|names[j]|];
      assert names[k] == ReasonKey(names[k])[..|names[k]|];
    }
  }
}
