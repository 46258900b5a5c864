/**
 * The few `java.lang.String` operations the application relies on:
 * `trim()`, the "null or blank" test, substring containment (the model of
 * `LIKE '%kw%'`), the order of `ORDER BY nama`, and `hashCode()`.
 */
module Text {
  import opened Wrappers

  /** `String.trim()` removes every leading and trailing code unit up to U+0020. */
  predicate IsWhite(c: char) {
    c <= ' '
  }

  predicate AllWhite(s: string) {
    forall i :: 0 <= i < |s| ==> IsWhite(s[i])
  }

  function TrimStart(s: string): string {
    if s != [] && IsWhite(s[0]) then TrimStart(s[1..]) else s
  }

  function TrimEnd(s: string): string {
    if s != [] && IsWhite(s[|s| - 1]) then TrimEnd(s[..|s| - 1]) else s
  }

  /** Java's `s.trim()`. */
  function Trim(s: string): string {
    TrimEnd(TrimStart(s))
  }

  /** The guard `s == null || s.trim().isEmpty()` used throughout the application. */
  predicate IsBlank(s: Option<string>) {
    s.None? || Trim(s.value) == []
  }

  lemma {:induction false} TrimStartEmptyIff(s: string)
    ensures TrimStart(s) == [] <==> AllWhite(s)
    ensures TrimStart(s) != [] ==> !IsWhite(TrimStart(s)[0])
    decreases |s|
  {
    if s != [] && IsWhite(s[0]) {
      TrimStartEmptyIff(s[1..]);
      assert AllWhite(s) <==> AllWhite(s[1..]) by {
        if AllWhite(s[1..]) {
          forall i | 0 <= i < |s| ensures IsWhite(s[i]) {
            if i > 0 { assert s[i] == s[1..][i - 1]; }
          }
        }
      }
    }
  }

  lemma {:induction false} TrimEndPrefix(s: string)
    ensures |TrimEnd(s)| <= |s| && TrimEnd(s) == s[..|TrimEnd(s)|]
    ensures TrimEnd(s) == [] <==> AllWhite(s)
    ensures TrimEnd(s) != [] ==> !IsWhite(TrimEnd(s)[|TrimEnd(s)| - 1])
    decreases |s|
  {
    if s != [] && IsWhite(s[|s| - 1]) {
      var p := s[..|s| - 1];
      TrimEndPrefix(p);
      assert TrimEnd(s) == TrimEnd(p);
      assert p[..|TrimEnd(p)|] == s[..|TrimEnd(p)|];
      assert AllWhite(s) <==> AllWhite(p) by {
        if AllWhite(p) {
          forall i | 0 <= i < |s| ensures IsWhite(s[i]) {
            if i < |s| - 1 { assert s[i] == p[i]; }
          }
        }
      }
    }
  }

  /** A string trims to nothing exactly when it is made of white space only. */
  lemma TrimEmptyIff(s: string)
    ensures Trim(s) == [] <==> AllWhite(s)
  {
    TrimStartEmptyIff(s);
    var t := TrimStart(s);
    TrimEndPrefix(t);
    if t != [] {
      assert !AllWhite(t) by { assert !IsWhite(t[0]); }
    }
  }

  /** Blank in Java's sense: null, or no character above U+0020. */
  lemma BlankIff(s: Option<string>)
    ensures IsBlank(s) <==> s.None? || AllWhite(s.value)
  {
    if s.Some? { TrimEmptyIff(s.value); }
  }

  /** Trimming a trimmed string changes nothing. */
  lemma TrimIdempotent(s: string)
    ensures Trim(Trim(s)) == Trim(s)
  {
    var t := TrimStart(s);
    TrimStartEmptyIff(s);
    TrimEndPrefix(t);
    var u := TrimEnd(t);
    if u != [] {
      assert u[0] == t[0];
      assert TrimStart(u) == u;
    }
  }

  /** The trimmed string has no white space at either end. */
  lemma TrimEnds(s: string)
    ensures Trim(s) != [] ==> !IsWhite(Trim(s)[0]) && !IsWhite(Trim(s)[|Trim(s)| - 1])
  {
    var t := TrimStart(s);
    TrimStartEmptyIff(s);
    TrimEndPrefix(t);
    var u := TrimEnd(t);
    if u != [] { assert u[0] == t[0]; }
  }

  /** `hay` contains `part` as a contiguous piece: the meaning given to `LIKE '%part%'`. */
  predicate Contains(hay: string, part: string)
    decreases |hay|
  {
    part <= hay || (hay != [] && Contains(hay[1..], part))
  }

  /** `part` occurs in `hay` starting at position `i`. */
  predicate OccursAt(hay: string, part: string, i: int) {
    0 <= i && i + |part| <= |hay| && hay[i..i + |part|] == part
  }

  /** `Contains` agrees with the positional reading of "substring". */
  lemma {:induction false} ContainsIff(hay: string, part: string)
    ensures Contains(hay, part) <==> exists i :: OccursAt(hay, part, i)
    decreases |hay|
  {
    if part <= hay {
      assert OccursAt(hay, part, 0);
    } else if hay != [] {
      ContainsIff(hay[1..], part);
      if Contains(hay[1..], part) {
        var i :| OccursAt(hay[1..], part, i);
        assert hay[i + 1..i + 1 + |part|] == hay[1..][i..i + |part|];
        assert OccursAt(hay, part, i + 1);
      }
      if i :| OccursAt(hay, part, i) && i > 0 {
        assert hay[1..][i - 1..i - 1 + |part|] == hay[i..i + |part|];
        assert OccursAt(hay[1..], part, i - 1);
      }
    }
  }

  /**
   * The order of `ORDER BY nama` under SQLite's default BINARY collation:
   * lexicographic order on the characters' code points.
   */
  predicate NameLe(a: string, b: string)
    decreases |a|
  {
    a == [] || (b != [] && (a[0] < b[0] || (a[0] == b[0] && NameLe(a[1..], b[1..]))))
  }

  lemma {:induction false} NameLeReflexive(a: string)
    ensures NameLe(a, a)
    decreases |a|
  {
    if a != [] { NameLeReflexive(a[1..]); }
  }

  lemma {:induction false} NameLeTotal(a: string, b: string)
    ensures NameLe(a, b) || NameLe(b, a)
    decreases |a|
  {
    if a != [] && b != [] && a[0] == b[0] { NameLeTotal(a[1..], b[1..]); }
  }

  lemma {:induction false} NameLeTransitive(a: string, b: string, c: string)
    requires NameLe(a, b) && NameLe(b, c)
    ensures NameLe(a, c)
    decreases |a|
  {
    if a != [] && a[0] == b[0] && b[0] == c[0] {
      NameLeTransitive(a[1..], b[1..], c[1..]);
    }
  }

  lemma {:induction false} NameLeAntisymmetric(a: string, b: string)
    requires NameLe(a, b) && NameLe(b, a)
    ensures a == b
    decreases |a|
  {
    if a != [] {
      NameLeAntisymmetric(a[1..], b[1..]);
      assert a == [a[0]] + a[1..] && b == [b[0]] + b[1..];
    }
  }

  const TwoTo31: int := 0x8000_0000
  const TwoTo32: int := 0x1_0000_0000

  /** Java's `int` arithmetic: the value modulo 2^32, read as a signed 32-bit number. */
  function ToInt32(x: int): (r: int)
    ensures -TwoTo31 <= r < TwoTo31
    ensures (x - r) % TwoTo32 == 0
    ensures -TwoTo31 <= x < TwoTo31 ==> r == x
  {
    (x + TwoTo31) % TwoTo32 - TwoTo31
  }

  /**
   * `String.hashCode()`: s[0]*31^(n-1) + ... + s[n-1], in 32-bit arithmetic,
   * each character taken as one UTF-16 code unit.
   */
  function StringHash(s: string): (h: int)
    ensures -TwoTo31 <= h < TwoTo31
    ensures s == [] ==> h == 0
  {
    if s == [] then 0 else ToInt32(31 * StringHash(s[..|s| - 1]) + s[|s| - 1] as int)
  }

  /** How Java renders a possibly-null string in concatenation or `%s`: `null` prints as "null". */
  function Show(s: Option<string>): string
  {
    if s.Some? then s.value else "null"
  }

  /** The characters before the first `stop`, or the whole string when `stop` does not occur. */
  function TakeUntil(s: string, stop: char): (r: string)
    ensures r <= s && stop !in r
  {
    if s == [] || s[0] == stop then [] else [s[0]] + TakeUntil(s[1..], stop)
  }

  /** The key shown between the brackets of a label "[key] name". */
  function LabelKey(shown: string): string {
    if shown != [] && shown[0] == '[' then TakeUntil(shown[1..], ']') else []
  }

  lemma {:induction false} TakeUntilPrefix(k: string, stop: char, rest: string)
    requires stop !in k
    ensures TakeUntil(k + [stop] + rest, stop) == k
    decreases |k|
  {
    if k != [] {
      assert (k + [stop] + rest)[1..] == k[1..] + [stop] + rest;
      TakeUntilPrefix(k[1..], stop, rest);
    }
  }

  /** A label "[key] name" gives its key back, provided the key holds no ']'. */
  lemma LabelKeyRoundTrip(key: string, name: string)
    requires ']' !in key
    ensures LabelKey("[" + key + "] " + name) == key
  {
    var shown := "[" + key + "] " + name;
    assert shown[1..] == key + [']'] + (" " + name);
    TakeUntilPrefix(key, ']', " " + name);
  }
}
