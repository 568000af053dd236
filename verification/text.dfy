/** Whitespace and the two string operations of Python that the calculator front end
    uses: str.strip() and the search for the first `=` behind str.split('=', 1). */
module CalcText {

  datatype Option<T> = None | Some(value: T)

  /** `\s` and str.isspace() on ASCII: space, tab, line feed, vertical tab, form feed,
      carriage return and the separators 0x1C-0x1F. */
  predicate IsSpace(c: char) { c == ' ' || 9 <= c as int <= 13 || 28 <= c as int <= 31 }

  // ---- str.strip

  predicate AllSpace(t: string) {
    forall k :: 0 <= k < |t| ==> IsSpace(t[k])
  }

  /** s with its leading whitespace removed: a suffix of s that does not start with
      whitespace, all of whose cut-off prefix is whitespace. */
  function TrimStart(s: string): (r: string)
    ensures |r| <= |s| && r == s[|s| - |r|..]
    ensures r == [] || !IsSpace(r[0])
    ensures AllSpace(s[..|s| - |r|])
  {
    if s != [] && IsSpace(s[0]) then
      var r := TrimStart(s[1..]);
      assert s[..|s| - |r|] == [s[0]] + s[1..][..|s| - 1 - |r|];
      r
    else s
  }

  /** s with its trailing whitespace removed: a prefix of s that does not end with
      whitespace, all of whose cut-off suffix is whitespace. */
  function TrimEnd(s: string): (r: string)
    ensures |r| <= |s| && r == s[..|r|]
    ensures r == [] || !IsSpace(r[|r| - 1])
    ensures AllSpace(s[|r|..])
  {
    if s != [] && IsSpace(s[|s| - 1]) then
      var r := TrimEnd(s[..|s| - 1]);
      assert s[|r|..] == s[..|s| - 1][|r|..] + [s[|s| - 1]];
      r
    else s
  }

  /** str.strip() with no argument: both ends trimmed. */
  function Strip(s: string): (r: string)
    ensures r == [] || (!IsSpace(r[0]) && !IsSpace(r[|r| - 1]))
  {
    var t := TrimStart(s);
    assert TrimEnd(t) != [] ==> TrimEnd(t)[0] == t[0];
    TrimEnd(t)
  }

  /** The number of whitespace characters that str.strip() removes at the front. */
  function Lead(s: string): nat {
    |s| - |TrimStart(s)|
  }

  /** The stripped string is the slice of s after its leading whitespace, and everything
      cut off at either end is whitespace. */
  lemma {:induction false} StripSlice(s: string)
    ensures Lead(s) + |Strip(s)| <= |s| && Strip(s) == s[Lead(s)..Lead(s) + |Strip(s)|]
    ensures AllSpace(s[..Lead(s)]) && AllSpace(s[Lead(s) + |Strip(s)|..])
  {
    var t := TrimStart(s);
    var r := TrimEnd(t);
    var i := |s| - |t|;
    assert Lead(s) == i && Strip(s) == r;
    SliceOfSuffix(s, i, |r|);
  }

  /** Slicing the suffix s[i..] is slicing s shifted by i. */
  lemma {:induction false} SliceOfSuffix(s: string, i: nat, j: nat)
    requires i + j <= |s|
    ensures s[i..][..j] == s[i..i + j] && s[i..][j..] == s[i + j..]
  {
  }

  /** Stripping twice is stripping once. */
  lemma {:induction false} StripIdempotent(s: string)
    ensures Strip(Strip(s)) == Strip(s)
  {
    var r := Strip(s);
    if r != [] {
      assert TrimStart(r) == r;
      assert TrimEnd(r) == r;
    }
  }

  // ---- str.split('=', 1)

  /** The index of the first c in s. */
  function Find(s: string, c: char): (r: Option<nat>)
    ensures r.None? <==> c !in s
    ensures r.Some? ==> r.value < |s| && s[r.value] == c && c !in s[..r.value]
  {
    if s == [] then None
    else if s[0] == c then Some(0)
    else match Find(s[1..], c)
      case None => None
      case Some(i) =>
        assert s[..i + 1] == [s[0]] + s[1..][..i];
        Some(i + 1)
  }

  /** The first c in `left + [c] + right`, with no c in left, is the one after left. */
  lemma {:induction false} FindAfter(left: string, c: char, right: string)
    requires c !in left
    ensures Find(left + [c] + right, c) == Some(|left|)
  {
    var s := left + [c] + right;
    assert s[..|left|] == left;
    assert s[|left|] == c;
  }

  /** A character that s lacks is not in s stripped either. */
  lemma {:induction false} StripOmits(s: string, c: char)
    requires c !in s
    ensures c !in Strip(s)
  {
    StripSlice(s);
    assert Strip(s) <= s[Lead(s)..];
  }
}
