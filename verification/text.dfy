/**
 * String operations the dashboard applies to names, slugs and form inputs:
 * `toLowerCase`, `replace(/\s+/g, '_')`, `replace(/_/g, ' ')` and `trim`.
 * The alphabet is restricted to ASCII: `\s` is the six ASCII whitespace
 * characters and only `A`..`Z` have a lower-case form.
 */
module Text {

  /** Membership in `\s`: space, tab, line feed, vertical tab, form feed, carriage return. */
  predicate IsSpace(c: char) {
    c == ' ' || '\t' <= c <= '\r'
  }

  predicate IsUpper(c: char) {
    'A' <= c <= 'Z'
  }

  predicate NoSpace(s: string) {
    forall i :: 0 <= i < |s| ==> !IsSpace(s[i])
  }

  predicate NoUpper(s: string) {
    forall i :: 0 <= i < |s| ==> !IsUpper(s[i])
  }

  /** True when every character is whitespace (the empty string included). */
  predicate IsBlank(s: string) {
    forall i :: 0 <= i < |s| ==> IsSpace(s[i])
  }

  function Lower(c: char): (d: char)
    ensures !IsUpper(d)
    ensures IsSpace(d) <==> IsSpace(c)
  {
    if IsUpper(c) then (c as int + 32) as char else c
  }

  /** `toLowerCase()` over the ASCII alphabet. */
  function ToLower(s: string): (r: string)
    ensures |r| == |s| && NoUpper(r)
    ensures forall i :: 0 <= i < |s| ==> r[i] == Lower(s[i])
  {
    seq(|s|, i requires 0 <= i < |s| => Lower(s[i]))
  }

  /** The length of the leading whitespace of `s`. */
  function LeadingSpaces(s: string): (n: nat)
    ensures n <= |s| && IsBlank(s[..n])
    ensures n == |s| || !IsSpace(s[n])
  {
    if s != [] && IsSpace(s[0]) then
      var m := LeadingSpaces(s[1..]);
      assert s[..m + 1] == [s[0]] + s[1..][..m];
      m + 1
    else 0
  }

  /** The length of the trailing whitespace of `s`. */
  function TrailingSpaces(s: string): (n: nat)
    ensures n <= |s| && IsBlank(s[|s| - n..])
    ensures n == |s| || !IsSpace(s[|s| - n - 1])
  {
    if s != [] && IsSpace(s[|s| - 1]) then
      var t := s[..|s| - 1];
      var m := TrailingSpaces(t);
      assert IsBlank(s[|s| - (m + 1)..]) by {
        forall k | |s| - (m + 1) <= k < |s| - 1
          ensures IsSpace(s[k])
        {
          assert s[k] == t[|t| - m..][k - (|t| - m)];
        }
      }
      m + 1
    else 0
  }

  /** `trim()`: `s` without its leading and trailing whitespace. */
  function Trim(s: string): (r: string)
    ensures r == [] || (!IsSpace(r[0]) && !IsSpace(r[|r| - 1]))
    ensures exists i, j :: 0 <= i <= j <= |s| && r == s[i..j] && IsBlank(s[..i]) && IsBlank(s[j..])
  {
    var i := LeadingSpaces(s);
    var d := s[i..];
    var n := TrailingSpaces(d);
    var j := |s| - n;
    assert d[|d| - n..] == s[j..];
    assert d[..|d| - n] == s[i..j];
    assert IsBlank(s[..i]) && IsBlank(s[j..]);
    assert i == j || (!IsSpace(s[i]) && !IsSpace(s[j - 1])) by {
      if i < j {
        assert s[j - 1] == d[|d| - n - 1];
      }
    }
    s[i..j]
  }

  /**
   * `replace(/\s+/g, '_')`: every maximal run of whitespace becomes a single
   * underscore, every other character is kept.
   */
  function CollapseSpaces(s: string): (r: string)
    ensures NoSpace(r)
    ensures NoUpper(s) ==> NoUpper(r)
    ensures |r| <= |s|
    decreases |s|
  {
    if s == [] then []
    else if IsSpace(s[0]) then "_" + CollapseSpaces(s[LeadingSpaces(s)..])
    else [s[0]] + CollapseSpaces(s[1..])
  }

  /** The slug the editor and the importer derive: `toLowerCase().replace(/\s+/g, '_')`. */
  function Slugify(name: string): (slug: string)
    ensures NoSpace(slug) && NoUpper(slug)
    ensures |slug| <= |name|
  {
    CollapseSpaces(ToLower(name))
  }

  /** `replace(/_/g, ' ')`: the importer's display name for a tag. */
  function UnderscoresToSpaces(s: string): (r: string)
    ensures |r| == |s| && '_' !in r
    ensures forall i :: 0 <= i < |s| && s[i] == '_' ==> r[i] == ' '
    ensures forall i :: 0 <= i < |s| && s[i] != '_' ==> r[i] == s[i]
  {
    seq(|s|, i requires 0 <= i < |s| => if s[i] == '_' then ' ' else s[i])
  }

  // ---------------------------------------------------------------------
  // Properties of the slug derivation
  // ---------------------------------------------------------------------

  lemma {:induction false} CollapseWithoutSpaces(s: string)
    requires NoSpace(s)
    ensures CollapseSpaces(s) == s
    decreases |s|
  {
    if s != [] {
      CollapseWithoutSpaces(s[1..]);
      assert s == [s[0]] + s[1..];
    }
  }

  lemma LowerWithoutUpper(s: string)
    requires NoUpper(s)
    ensures ToLower(s) == s
  {
  }

  /** Deriving a slug from a slug changes nothing. */
  lemma SlugifyIdempotent(name: string)
    ensures Slugify(Slugify(name)) == Slugify(name)
  {
    var slug := Slugify(name);
    LowerWithoutUpper(slug);
    CollapseWithoutSpaces(slug);
  }

  /** Leading whitespace never reaches past the first non-blank character. */
  lemma {:induction false} LeadingSpacesAppend(a: string, b: string)
    requires !IsBlank(a)
    ensures LeadingSpaces(a + b) == LeadingSpaces(a) < |a|
  {
    if IsSpace(a[0]) {
      var a' := a[1..];
      assert (a + b)[1..] == a' + b;
      assert !IsBlank(a') by {
        var k :| 0 <= k < |a| && !IsSpace(a[k]);
        assert a'[k - 1] == a[k];
      }
      LeadingSpacesAppend(a', b);
    } else {
      assert (a + b)[0] == a[0];
    }
  }

  lemma {:induction false} LeadingSpacesRun(w: string, t: string)
    requires IsBlank(w)
    requires t == [] || !IsSpace(t[0])
    ensures LeadingSpaces(w + t) == |w|
  {
    if w != [] {
      assert (w + t)[1..] == w[1..] + t;
      LeadingSpacesRun(w[1..], t);
    } else {
      assert w + t == t;
    }
  }

  lemma Regroup(p: string, q: string, r: string, u: string)
    ensures p + (q + r + u) == (p + q) + r + u
  {
  }

  /** How `CollapseSpaces` unfolds on a string that starts with whitespace. */
  lemma CollapseLeadingSpace(x: string)
    requires x != [] && IsSpace(x[0])
    ensures CollapseSpaces(x) == "_" + CollapseSpaces(x[LeadingSpaces(x)..])
  {
  }

  /** How `CollapseSpaces` unfolds on a string that starts with another character. */
  lemma CollapseLeadingChar(x: string)
    requires x != [] && !IsSpace(x[0])
    ensures CollapseSpaces(x) == [x[0]] + CollapseSpaces(x[1..])
  {
  }

  /**
   * A maximal whitespace run `w` (nothing blank on either side of it)
   * contributes exactly one underscore, and the text on either side is
   * collapsed independently.
   */
  lemma {:induction false} CollapseRun(a: string, w: string, t: string)
    requires a == [] || !IsSpace(a[|a| - 1])
    requires w != [] && IsBlank(w)
    requires t == [] || !IsSpace(t[0])
    ensures CollapseSpaces(a + w + t) == CollapseSpaces(a) + "_" + CollapseSpaces(t)
    decreases |a|, 1
  {
    if a == [] {
      assert a + w + t == w + t;
      LeadingSpacesRun(w, t);
      assert (w + t)[|w|..] == t;
      CollapseLeadingSpace(w + t);
    } else if IsSpace(a[0]) {
      CollapseRunAfterSpace(a, w, t);
    } else {
      CollapseRunAfterChar(a, w, t);
    }
  }

  lemma {:induction false} CollapseRunAfterSpace(a: string, w: string, t: string)
    requires a != [] && IsSpace(a[0]) && !IsSpace(a[|a| - 1])
    requires w != [] && IsBlank(w)
    requires t == [] || !IsSpace(t[0])
    ensures CollapseSpaces(a + w + t) == CollapseSpaces(a) + "_" + CollapseSpaces(t)
    decreases |a|, 0
  {
    var d := SkipLeadingBeforeRun(a, w, t);
    CollapseLeadingSpace(a + w + t);
    CollapseLeadingSpace(a);
    CollapseRun(d, w, t);
    Regroup("_", CollapseSpaces(d), "_", CollapseSpaces(t));
  }

  /** Skipping the leading whitespace of `a + w + t` only ever eats into `a`. */
  lemma {:induction false} SkipLeadingBeforeRun(a: string, w: string, t: string) returns (d: string)
    requires a != [] && IsSpace(a[0]) && !IsSpace(a[|a| - 1])
    ensures d == a[LeadingSpaces(a)..] && |d| < |a|
    ensures d != [] && d[|d| - 1] == a[|a| - 1]
    ensures (a + w + t)[0] == a[0]
    ensures (a + w + t)[LeadingSpaces(a + w + t)..] == d + w + t
  {
    assert !IsBlank(a) by { assert !IsSpace(a[|a| - 1]); }
    LeadingSpacesAppend(a, w + t);
    var n := LeadingSpaces(a);
    d := a[n..];
    assert a + (w + t) == a + w + t;
    assert (a + (w + t))[n..] == d + (w + t);
    assert d + (w + t) == d + w + t;
  }

  lemma {:induction false} CollapseRunAfterChar(a: string, w: string, t: string)
    requires a != [] && !IsSpace(a[0]) && !IsSpace(a[|a| - 1])
    requires w != [] && IsBlank(w)
    requires t == [] || !IsSpace(t[0])
    ensures CollapseSpaces(a + w + t) == CollapseSpaces(a) + "_" + CollapseSpaces(t)
    decreases |a|, 0
  {
    var a' := a[1..];
    calc {
      CollapseSpaces(a + w + t);
    == { UnconsRun(a, w, t); CollapseLeadingChar(a + w + t); }
      [a[0]] + CollapseSpaces(a' + w + t);
    == { assert a' == [] || a'[|a'| - 1] == a[|a| - 1]; CollapseRun(a', w, t); }
      [a[0]] + (CollapseSpaces(a') + "_" + CollapseSpaces(t));
    == { Regroup([a[0]], CollapseSpaces(a'), "_", CollapseSpaces(t)); }
      ([a[0]] + CollapseSpaces(a')) + "_" + CollapseSpaces(t);
    == { CollapseLeadingChar(a); }
      CollapseSpaces(a) + "_" + CollapseSpaces(t);
    }
  }

  /** The first character of `a + w + t` and what follows it, for a non-empty `a`. */
  lemma UnconsRun(a: string, w: string, t: string)
    requires a != []
    ensures (a + w + t)[0] == a[0] && (a + w + t)[1..] == a[1..] + w + t
  {
  }

  lemma LowerAppend(a: string, b: string)
    ensures ToLower(a + b) == ToLower(a) + ToLower(b)
  {
  }

  /**
   * The slug of `a + w + t`, where `w` is a maximal whitespace run, is the
   * slug of `a`, one underscore, and the slug of `t`.
   */
  lemma SlugifyRun(a: string, w: string, t: string)
    requires a == [] || !IsSpace(a[|a| - 1])
    requires w != [] && IsBlank(w)
    requires t == [] || !IsSpace(t[0])
    ensures Slugify(a + w + t) == Slugify(a) + "_" + Slugify(t)
  {
    LowerAppend(a + w, t);
    LowerAppend(a, w);
    var la, lw, lt := ToLower(a), ToLower(w), ToLower(t);
    assert IsBlank(lw);
    CollapseRun(la, lw, lt);
  }

  /** A character outside every whitespace run is kept, lower-cased. */
  lemma SlugifyKeeps(c: char, t: string)
    requires !IsSpace(c)
    ensures Slugify([c] + t) == [Lower(c)] + Slugify(t)
  {
    LowerAppend([c], t);
    assert ToLower([c] + t) == [Lower(c)] + ToLower(t);
    assert ([Lower(c)] + ToLower(t))[1..] == ToLower(t);
  }

  // ---------------------------------------------------------------------
  // Properties of trim
  // ---------------------------------------------------------------------

  /** `trim()` yields the empty string exactly on blank input. */
  lemma TrimEmptyIffBlank(s: string)
    ensures Trim(s) == [] <==> IsBlank(s)
  {
    if !IsBlank(s) {
      LeadingSpacesAppend(s, []);
      assert s + [] == s;
    }
  }

  lemma TrimIdempotent(s: string)
    ensures Trim(Trim(s)) == Trim(s)
  {
  }
}
