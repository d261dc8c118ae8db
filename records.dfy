/**
 * Cell values and records. A record is the object the library builds from a
 * row: its properties in insertion order, each key at most once.
 */
module Records {
  /** A cell value as the backend hands it over. */
  datatype Cell = Str(s: string) | Int(i: int) | Bool(b: bool)

  /**
   * A cell is blank when `value != ""` is false under JavaScript's loose
   * equality: the empty string, and also 0 and false, which both convert to
   * the number 0 just as "" does.
   */
  predicate IsBlank(c: Cell) {
    c == Str("") || c == Int(0) || c == Bool(false)
  }

  predicate UniqueKeys(r: seq<(string, Cell)>) {
    forall i, j :: 0 <= i < j < |r| ==> r[i].0 != r[j].0
  }

  /** An object's own properties in the order `Object.keys` lists them. */
  type Record = r: seq<(string, Cell)> | UniqueKeys(r) witness []

  /** `Object.keys(r)` */
  function Keys(r: seq<(string, Cell)>): seq<string> {
    seq(|r|, i requires 0 <= i < |r| => r[i].0)
  }

  /** `Object.keys(r).map(key => r[key])`: the values in key order. */
  function Values(r: seq<(string, Cell)>): seq<Cell> {
    seq(|r|, i requires 0 <= i < |r| => r[i].1)
  }

  /**
   * The assignment `r[k] = v`: an existing key keeps its position and takes
   * the new value; a new key is added after all the others.
   */
  function Set(r: Record, k: string, v: Cell): Record {
    if k in Keys(r) then
      var s := seq(|r|, i requires 0 <= i < |r| => if r[i].0 == k then (k, v) else r[i]);
      assert forall i :: 0 <= i < |r| ==> s[i].0 == r[i].0;
      s
    else
      assert forall i :: 0 <= i < |r| ==> r[i].0 == Keys(r)[i];
      r + [(k, v)]
  }

  /** The keys after an assignment: the old ones and the assigned one. */
  lemma KeysAfterSet(r: Record, k: string, v: Cell, k': string)
    ensures k' in Keys(Set(r, k, v)) <==> k' in Keys(r) || k' == k
  {
    var s := Set(r, k, v);
    if k in Keys(r) {
      assert Keys(s) == Keys(r);
    } else {
      assert Keys(s) == Keys(r) + [k];
    }
  }

  /** Assigning a new key adds it, with its value, after all the others. */
  lemma AssignNewKey(r: Record, k: string, v: Cell)
    requires k !in Keys(r)
    ensures Keys(Set(r, k, v)) == Keys(r) + [k]
    ensures Values(Set(r, k, v)) == Values(r) + [v]
  {
    assert Set(r, k, v) == r + [(k, v)];
  }

  /** Assigning an existing key keeps every key where it was. */
  lemma AssignExistingKey(r: Record, k: string, v: Cell)
    requires k in Keys(r)
    ensures Keys(Set(r, k, v)) == Keys(r)
  {
    var s := Set(r, k, v);
    assert forall i :: 0 <= i < |r| ==> Keys(s)[i] == Keys(r)[i];
  }

  /** With unique keys a record holds at most one value per key, so `(k, v) in r` reads as `r[k] == v`. */
  lemma OneValuePerKey(r: Record, k: string, v: Cell, w: Cell)
    requires (k, v) in r && (k, w) in r
    ensures v == w
  {
    var i :| 0 <= i < |r| && r[i] == (k, v);
    var j :| 0 <= j < |r| && r[j] == (k, w);
    assert !(i < j) && !(j < i);
  }

  /** After `r[k] = v` the record holds `v` under `k`. */
  lemma SetHolds(r: Record, k: string, v: Cell)
    ensures (k, v) in Set(r, k, v)
  {
    var s := Set(r, k, v);
    if k !in Keys(r) {
      assert s[|r|] == (k, v);
    } else {
      var i :| 0 <= i < |r| && Keys(r)[i] == k;
      assert s[i] == (k, v);
    }
  }

  /** ... and every property under another key is as it was. */
  lemma SetKeepsOthers(r: Record, k: string, v: Cell, p: (string, Cell))
    requires p.0 != k
    ensures p in Set(r, k, v) <==> p in r
  {
    var s := Set(r, k, v);
    if p in r {
      var i :| 0 <= i < |r| && r[i] == p;
      assert s[i] == p;
    }
    if p in s {
      var i :| 0 <= i < |s| && s[i] == p;
      assert i < |r| && r[i] == p;
    }
  }
}
