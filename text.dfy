/** Text operations the record store relies on: ASCII case folding (the
    model's stand-in for Python's `str.lower`), substring search (Python's
    `needle in haystack`) and lexicographic string comparison (Python's `<`
    on `str`, which compares code points). */
module Text {

  predicate IsUpper(ch: char) { 'A' <= ch <= 'Z' }

  /** Folds one ASCII upper-case letter to lower case; every other
      character is left alone. */
  function LowerChar(ch: char): (r: char)
    ensures !IsUpper(r)
    ensures IsUpper(ch) ==> r as int == ch as int + 32
    ensures !IsUpper(ch) ==> r == ch
  {
    if IsUpper(ch) then (ch as int + 32) as char else ch
  }

  /** Character-wise ASCII case folding. */
  function Lower(s: string): (r: string)
    ensures |r| == |s|
    ensures forall i :: 0 <= i < |s| ==> r[i] == LowerChar(s[i])
  {
    seq(|s|, i requires 0 <= i < |s| => LowerChar(s[i]))
  }

  lemma LowerConcat(a: string, b: string)
    ensures Lower(a + b) == Lower(a) + Lower(b)
  {
  }

  lemma LowerIdempotent(s: string)
    ensures Lower(Lower(s)) == Lower(s)
  {
  }

  /** `needle` occurs in `hay` starting at position `i`. */
  predicate OccursAt(hay: string, needle: string, i: int)
  {
    0 <= i && i + |needle| <= |hay| && hay[i..i + |needle|] == needle
  }

  /** Python's `needle in hay` on strings: a prefix test at every position. */
  function Contains(hay: string, needle: string): bool
    decreases |hay|
  {
    needle <= hay || (hay != [] && Contains(hay[1..], needle))
  }

  /** The empty string occurs in every string. */
  lemma ContainsEmpty(hay: string)
    ensures Contains(hay, "")
  {
  }

  /** `Contains` holds exactly when the needle occurs at some position. */
  lemma {:induction false} ContainsIff(hay: string, needle: string)
    ensures Contains(hay, needle) <==> exists i :: OccursAt(hay, needle, i)
  {
    if Contains(hay, needle) {
      ContainsOccurs(hay, needle);
    }
    if exists i :: OccursAt(hay, needle, i) {
      var i :| OccursAt(hay, needle, i);
      OccursContains(hay, needle, i);
    }
  }

  lemma {:induction false} ContainsOccurs(hay: string, needle: string)
    requires Contains(hay, needle)
    ensures exists i :: OccursAt(hay, needle, i)
    decreases |hay|
  {
    if needle <= hay {
      assert OccursAt(hay, needle, 0);
    } else {
      ContainsOccurs(hay[1..], needle);
      var i :| OccursAt(hay[1..], needle, i);
      assert hay[i + 1..i + 1 + |needle|] == hay[1..][i..i + |needle|];
      assert OccursAt(hay, needle, i + 1);
    }
  }

  lemma {:induction false} OccursContains(hay: string, needle: string, i: int)
    requires OccursAt(hay, needle, i)
    ensures Contains(hay, needle)
    decreases |hay|
  {
    if i == 0 {
      assert needle == hay[..|needle|];
    } else {
      assert hay[1..][i - 1..i - 1 + |needle|] == hay[i..i + |needle|];
      OccursContains(hay[1..], needle, i - 1);
    }
  }

  /** Lexicographic order on strings by code point, as Python's `<` on
      `str`: a proper prefix comes first. */
  function LexLess(a: string, b: string): bool
    decreases |a|
  {
    if a == [] then b != []
    else if b == [] then false
    else if a[0] != b[0] then a[0] < b[0]
    else LexLess(a[1..], b[1..])
  }

  lemma {:induction false} LexLessIrreflexive(a: string)
    ensures !LexLess(a, a)
    decreases |a|
  {
    if a != [] {
      LexLessIrreflexive(a[1..]);
    }
  }

  lemma {:induction false} LexLessAsymmetric(a: string, b: string)
    ensures !(LexLess(a, b) && LexLess(b, a))
    decreases |a|
  {
    if a != [] && b != [] && a[0] == b[0] {
      LexLessAsymmetric(a[1..], b[1..]);
    }
  }

  lemma {:induction false} LexLessTransitive(a: string, b: string, c: string)
    requires LexLess(a, b) && LexLess(b, c)
    ensures LexLess(a, c)
    decreases |a|
  {
    if a != [] && a[0] == b[0] && b[0] == c[0] {
      LexLessTransitive(a[1..], b[1..], c[1..]);
    }
  }

  lemma {:induction false} LexLessTotal(a: string, b: string)
    requires a != b
    ensures LexLess(a, b) || LexLess(b, a)
    decreases |a|
  {
    if a != [] && b != [] && a[0] == b[0] {
      assert a == [a[0]] + a[1..] && b == [b[0]] + b[1..];
      LexLessTotal(a[1..], b[1..]);
    }
  }

  /** Strings that agree up to position `k` and differ there are ordered by
      their characters at `k`. */
  lemma {:induction false} LexLessAt(a: string, b: string, k: nat)
    requires k < |a| && k < |b| && a[..k] == b[..k] && a[k] < b[k]
    ensures LexLess(a, b)
  {
    if k > 0 {
      assert a[0] == a[..k][0] == b[..k][0] == b[0];
      assert a[1..][..k - 1] == a[1..k] == a[..k][1..];
      assert b[1..][..k - 1] == b[1..k] == b[..k][1..];
      LexLessAt(a[1..], b[1..], k - 1);
    }
  }

  /** "Not less than" is transitive: the fact a descending sort relies on. */
  lemma NotLessTransitive(a: string, b: string, c: string)
    requires !LexLess(a, b) && !LexLess(b, c)
    ensures !LexLess(a, c)
  {
    if a != b && b != c {
      LexLessTotal(a, b);
      LexLessTotal(b, c);
      LexLessTransitive(c, b, a);
      LexLessAsymmetric(a, c);
    }
  }
}
