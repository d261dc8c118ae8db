/** `fillWithUnderScore`: right-padding a string with underscores. */
module Padding {

  /** n underscores, none when n is not positive. */
  function Underscores(n: int): (u: string)
    ensures |u| == if n <= 0 then 0 else n
    ensures forall i :: 0 <= i < |u| ==> u[i] == '_'
  {
    if n <= 0 then "" else seq(n, _ => '_')
  }

  /**
   * str padded on the right with '_' up to length len: as long as the longer
   * of str and len, starting with str, underscores after it. A string that
   * is already long enough is never truncated.
   */
  function Filled(str: string, len: int): (r: string)
    ensures |r| == if len <= |str| then |str| else len
    ensures r[..|str|] == str
    ensures forall i :: |str| <= i < |r| ==> r[i] == '_'
  {
    str + Underscores(len - |str|)
  }

  /** The three properties of Filled determine it: no other string has them. */
  lemma FilledUnique(str: string, len: int, r: string)
    requires |r| == if len <= |str| then |str| else len
    requires r[..|str|] == str
    requires forall i :: |str| <= i < |r| ==> r[i] == '_'
    ensures r == Filled(str, len)
  {
    var f := Filled(str, len);
    forall i | 0 <= i < |r| ensures r[i] == f[i] {
      if i < |str| {
        assert r[i] == r[..|str|][i] == f[..|str|][i];
      }
    }
  }

  /** Padding to the same length twice is padding once. */
  lemma FilledIdempotent(str: string, len: int)
    ensures Filled(Filled(str, len), len) == Filled(str, len)
  {
    var f := Filled(str, len);
    assert Underscores(len - |f|) == "";
    assert f + "" == f;
  }

  /** The loop of `fillWithUnderScore`: append one '_' while fewer than `len - strLen` were appended. */
  method FillWithUnderScore(str: string, len: int) returns (r: string)
    ensures r == Filled(str, len)
  {
    var strLen := |str|;
    r := str;
    var i := 0;
    while i < len - strLen
      invariant 0 <= i && (i <= len - strLen || i == 0)
      invariant r == str + Underscores(i)
    {
      assert Underscores(i + 1) == Underscores(i) + "_";
      r := r + "_";
      i := i + 1;
    }
  }

  /** The documented cases: "ab" to 5, "abcdef" to 3 (unchanged), "" to 0. */
  lemma FillExamples()
    ensures Filled("ab", 5) == "ab___"
    ensures Filled("abcdef", 3) == "abcdef"
    ensures Filled("", 0) == ""
  {
    assert Underscores(3) == "___";
  }
}
