// Substring tests as the Python `in` operator performs them on strings.
module Text {

  predicate At(hay: string, i: int, needle: string) {
    0 <= i <= |hay| - |needle| && hay[i..i + |needle|] == needle
  }

  // Python's `needle in hay`.
  predicate Contains(hay: string, needle: string) {
    exists i :: 0 <= i <= |hay| && At(hay, i, needle)
  }

  // Python's `any(w in hay for w in words)`.
  predicate ContainsAny(hay: string, words: seq<string>) {
    exists k :: 0 <= k < |words| && Contains(hay, words[k])
  }

  // A string that contains `mid` contains everything `mid` contains.
  lemma ContainsTransitive(hay: string, mid: string, needle: string)
    requires Contains(hay, mid) && Contains(mid, needle)
    ensures Contains(hay, needle)
  {
    var i :| 0 <= i <= |hay| && At(hay, i, mid);
    var j :| 0 <= j <= |mid| && At(mid, j, needle);
    forall k | 0 <= k < |needle|
      ensures hay[i + j..i + j + |needle|][k] == needle[k]
    {
      assert hay[i..i + |mid|][j + k] == mid[j + k] && mid[j..j + |needle|][k] == needle[k];
    }
    assert At(hay, i + j, needle);
  }

  // Exactly the strings that occur in it.
  lemma ContainsIff(hay: string, needle: string)
    ensures Contains(hay, needle) <==> exists a, b :: hay == a + needle + b
  {
    if Contains(hay, needle) {
      var i :| 0 <= i <= |hay| && At(hay, i, needle);
      assert hay == hay[..i] + needle + hay[i + |needle|..];
    }
    if a, b :| hay == a + needle + b {
      assert hay[|a|..|a| + |needle|] == needle;
      assert At(hay, |a|, needle);
    }
  }

  predicate IsSpace(c: char) { c == ' ' || c == '\t' || c == '\n' || c == '\r' }

  // Python's strip() on the white space of plain text.
  function Strip(s: string): (r: string)
    ensures |r| <= |s|
    ensures r != [] ==> !IsSpace(r[0]) && !IsSpace(r[|r| - 1])
    ensures Trimmed(s) ==> r == s
  {
    if s == [] then []
    else if IsSpace(s[0]) then Strip(s[1..])
    else if IsSpace(s[|s| - 1]) then Strip(s[..|s| - 1])
    else s
  }

  // What strip() takes off is white space, at both ends.
  lemma {:induction false} StripTakesSpace(s: string) returns (a: string, b: string)
    ensures s == a + Strip(s) + b && Blank(a) && Blank(b)
  {
    if s == [] {
      a, b := [], [];
    } else if IsSpace(s[0]) {
      var t := Strip(s[1..]);
      assert Strip(s) == t;
      a, b := StripTakesSpace(s[1..]);
      hide Strip;
      assert s == [s[0]] + (a + t + b) == ([s[0]] + a) + t + b;
      a := [s[0]] + a;
    } else if IsSpace(s[|s| - 1]) {
      var n := |s| - 1;
      var t := Strip(s[..n]);
      assert Strip(s) == t;
      a, b := StripTakesSpace(s[..n]);
      hide Strip;
      assert s == (a + t + b) + [s[n]] == a + t + (b + [s[n]]);
      b := b + [s[n]];
    } else {
      a, b := [], [];
      assert Strip(s) == s;
    }
  }

  predicate Blank(s: string) { forall k :: 0 <= k < |s| ==> IsSpace(s[k]) }

  predicate Trimmed(s: string) {
    s == [] || (!IsSpace(s[0]) && !IsSpace(s[|s| - 1]))
  }
}
