/**
 * Case-insensitive text matching as the ORM's `icontains` and `iexact` lookups
 * use it, restricted to ASCII case folding, the lexicographic order the
 * database uses for `order_by('name')`, and the whitespace trimming that
 * form and serializer character fields apply to their input.
 */
module Text {
  import opened Wrappers

  /** ASCII lower-casing of one character; every other character is left alone. */
  function Lower(c: char): (d: char)
    ensures 'A' <= c <= 'Z' ==> d as int == c as int + 32
    ensures !('A' <= c <= 'Z') ==> d == c
  {
    if 'A' <= c <= 'Z' then (c as int + 32) as char else c
  }

  function LowerStr(s: string): (r: string)
    ensures |r| == |s|
    ensures forall i :: 0 <= i < |s| ==> r[i] == Lower(s[i])
  {
    if s == [] then [] else [Lower(s[0])] + LowerStr(s[1..])
  }

  lemma LowerStrIdempotent(s: string)
    ensures LowerStr(LowerStr(s)) == LowerStr(s)
  {
  }

  /** The characters Python's `str.strip()` removes, restricted to ASCII. */
  predicate IsSpace(c: char)
  {
    c == ' ' || '\t' <= c <= '\r' || '\U{1C}' <= c <= '\U{1F}'
  }

  /** `r` sits at position `i` of `s`, with only whitespace before and after it. */
  predicate PaddedAt(s: string, r: string, i: int)
  {
    OccursAt(s, r, i)
    && (forall j :: 0 <= j < i ==> IsSpace(s[j]))
    && (forall j :: i + |r| <= j < |s| ==> IsSpace(s[j]))
  }

  /**
   * `strip()`, as DRF's `CharField(trim_whitespace=True)` and Django's
   * `forms.CharField(strip=True)` apply it: whitespace is dropped from both ends.
   */
  function Strip(s: string): (r: string)
    ensures |r| <= |s|
    ensures r != [] ==> !IsSpace(r[0]) && !IsSpace(r[|r| - 1])
    decreases |s|
  {
    if s != [] && IsSpace(s[0]) then Strip(s[1..])
    else if s != [] && IsSpace(s[|s| - 1]) then Strip(s[..|s| - 1])
    else s
  }

  /** `s` consists of whitespace only. */
  predicate AllSpace(s: string)
  {
    forall i :: 0 <= i < |s| ==> IsSpace(s[i])
  }

  /** `strip()` leaves nothing exactly when the value is all whitespace. */
  lemma {:induction false} StripBlank(s: string)
    ensures Strip(s) == [] <==> AllSpace(s)
    decreases |s|
  {
    if s != [] && IsSpace(s[0]) {
      StripBlank(s[1..]);
      assert AllSpace(s[1..]) ==> AllSpace(s) by {
        if AllSpace(s[1..]) {
          forall j | 0 < j < |s| ensures IsSpace(s[j]) { assert s[j] == s[1..][j - 1]; }
        }
      }
    } else if s != [] && IsSpace(s[|s| - 1]) {
      StripBlank(s[..|s| - 1]);
      assert !IsSpace(s[..|s| - 1][0]);
    } else if s != [] {
      assert !IsSpace(s[0]);
    }
  }

  /** `strip()` leaves a stretch of the value with only whitespace around it. */
  lemma {:induction false} StripPadded(s: string) returns (i: int)
    ensures PaddedAt(s, Strip(s), i)
    decreases |s|
  {
    var r := Strip(s);
    if s != [] && IsSpace(s[0]) {
      var s' := s[1..];
      var i' := StripPadded(s');
      i := i' + 1;
      assert s[i..i + |r|] == s'[i'..i' + |r|];
      forall j | 0 <= j < i ensures IsSpace(s[j]) {
        if j > 0 { assert s[j] == s'[j - 1]; }
      }
      forall j | i + |r| <= j < |s| ensures IsSpace(s[j]) {
        assert s[j] == s'[j - 1];
      }
    } else if s != [] && IsSpace(s[|s| - 1]) {
      var s' := s[..|s| - 1];
      i := StripPadded(s');
      assert s[i..i + |r|] == s'[i..i + |r|];
      forall j | i + |r| <= j < |s| ensures IsSpace(s[j]) {
        if j < |s'| { assert s[j] == s'[j]; }
      }
    } else {
      i := 0;
      assert s[0..|s|] == s;
    }
  }

  /** A value with no whitespace at either end is left alone. */
  lemma StripUnpadded(s: string)
    requires s != [] ==> !IsSpace(s[0]) && !IsSpace(s[|s| - 1])
    ensures Strip(s) == s
  {
  }

  /** Stripping twice is stripping once. */
  lemma StripIdempotent(s: string)
    ensures Strip(Strip(s)) == Strip(s)
  {
    StripUnpadded(Strip(s));
  }

  /** Where `rsplit(c, 1)` splits: the position of the last `c`, None if there is none. */
  function LastIndexOf(s: string, c: char): (k: Option<nat>)
    ensures k.None? <==> c !in s
    ensures k.Some? ==> k.value < |s| && s[k.value] == c && forall j :: k.value < j < |s| ==> s[j] != c
  {
    if s == [] then None
    else if s[|s| - 1] == c then Some(|s| - 1)
    else
      var k := LastIndexOf(s[..|s| - 1], c);
      assert c in s[..|s| - 1] ==> c in s;
      assert c in s ==> c in s[..|s| - 1] by {
        if c in s {
          var j :| 0 <= j < |s| && s[j] == c;
          assert s[..|s| - 1][j] == c;
        }
      }
      k
  }

  /** The last `c` is determined by where `c` occurs. */
  lemma LastIndexOfAt(s: string, c: char, k: nat)
    requires k < |s| && s[k] == c
    requires forall j :: k < j < |s| ==> s[j] != c
    ensures LastIndexOf(s, c) == Some(k)
  {
    assert c in s;
  }

  /** `needle` occurs in `hay` starting at position `i`. */
  predicate OccursAt(hay: string, needle: string, i: int)
  {
    0 <= i <= |hay| - |needle| && hay[i..i + |needle|] == needle
  }

  predicate Contains(hay: string, needle: string)
  {
    exists i :: 0 <= i <= |hay| - |needle| && OccursAt(hay, needle, i)
  }

  /** The `__icontains` lookup. */
  predicate IContains(field: string, term: string)
  {
    Contains(LowerStr(field), LowerStr(term))
  }

  /** The `__iexact` lookup. */
  predicate IExact(field: string, term: string)
  {
    LowerStr(field) == LowerStr(term)
  }

  /** An exact case-insensitive match is also a case-insensitive substring match. */
  lemma IExactImpliesIContains(field: string, term: string)
    requires IExact(field, term)
    ensures IContains(field, term)
  {
    var h := LowerStr(field);
    assert h[0..|h|] == h;
    assert OccursAt(h, LowerStr(term), 0);
  }

  /** The converse fails: a proper part of a name is contained in it but is not equal to it. */
  lemma IContainsDoesNotImplyIExact()
    ensures IContains("Rome", "Rom") && !IExact("Rome", "Rom")
  {
    var h := LowerStr("Rome");
    assert h == "rome";
    assert LowerStr("Rom") == "rom";
    assert h[0..3] == "rom";
    assert OccursAt(h, "rom", 0);
  }

  /** Lexicographic order on names (character codes; the database's collation is not modelled). */
  predicate NameLeq(a: string, b: string)
  {
    |a| == 0 || (|b| > 0 && (a[0] < b[0] || (a[0] == b[0] && NameLeq(a[1..], b[1..]))))
  }

  lemma {:induction false} NameLeqTotal(a: string, b: string)
    ensures NameLeq(a, b) || NameLeq(b, a)
  {
    if |a| > 0 && |b| > 0 && a[0] == b[0] {
      NameLeqTotal(a[1..], b[1..]);
    }
  }

  lemma {:induction false} NameLeqTransitive(a: string, b: string, c: string)
    requires NameLeq(a, b) && NameLeq(b, c)
    ensures NameLeq(a, c)
  {
    if |a| > 0 && |b| > 0 && |c| > 0 && a[0] == b[0] && b[0] == c[0] {
      NameLeqTransitive(a[1..], b[1..], c[1..]);
    }
  }
}
