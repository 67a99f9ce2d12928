/**
 * The parts of java.lang.String that the core relies on, written out so that
 * their edge cases are explicit: length() and substring(0, n) counted in UTF-16
 * code units, trim(), replace with a one-character target,
 * split(",") with its removal of trailing empty strings, toLowerCase and
 * equalsIgnoreCase (ASCII letters only), contains/startsWith, and the decimal
 * rendering of a number in string concatenation.
 */
module JavaText {

  // ---------------------------------------------------------------------------
  // Prefixes and substrings
  // ---------------------------------------------------------------------------

  /** `s.startsWith(p)` */
  predicate StartsWith(s: string, p: string) {
    |p| <= |s| && s[..|p|] == p
  }

  /** `s.contains(sub)`: `sub` starts at some position of `s` */
  predicate Contains(s: string, sub: string) {
    exists i | 0 <= i <= |s| :: StartsWith(s[i..], sub)
  }

  /** A string occurs in any concatenation that has it as a middle part. */
  lemma ContainsMiddle(a: string, b: string, c: string)
    ensures Contains(a + b + c, b)
  {
    var s := a + b + c;
    assert s[|a|..][..|b|] == b;
    assert StartsWith(s[|a|..], b);
  }

  /** Whatever contains `sub` still does once text is put around it. */
  lemma ContainsWithin(a: string, s: string, b: string, sub: string)
    requires Contains(s, sub)
    ensures Contains(a + s + b, sub)
  {
    var i :| 0 <= i <= |s| && StartsWith(s[i..], sub);
    var t := a + s + b;
    assert t[|a| + i..][..|sub|] == s[i..][..|sub|];
    assert StartsWith(t[|a| + i..], sub);
  }

  // ---------------------------------------------------------------------------
  // length() and substring(0, n), counted in UTF-16 code units
  // ---------------------------------------------------------------------------

  /** The UTF-16 code units Java stores for one char: a supplementary char (above U+FFFF) is a
      surrogate pair. */
  function Utf16Units(c: char): (n: nat)
    ensures n == 1 || n == 2
    ensures n == 2 <==> c as int > 0xFFFF
  {
    if c as int > 0xFFFF then 2 else 1
  }

  /** `s.length()`: the number of UTF-16 code units. */
  function JavaLength(s: string): (n: nat)
    ensures |s| <= n <= 2 * |s|
  {
    if s == [] then 0 else Utf16Units(s[0]) + JavaLength(s[1..])
  }

  /** Java lengths add up over a concatenation. */
  lemma {:induction false} JavaLengthAppend(a: string, b: string)
    ensures JavaLength(a + b) == JavaLength(a) + JavaLength(b)
  {
    if a == [] {
      assert a + b == b;
    } else {
      assert (a + b)[1..] == a[1..] + b;
      JavaLengthAppend(a[1..], b);
    }
  }

  /** Texts whose chars pair up with the same unit counts have the same Java length. */
  lemma {:induction false} JavaLengthPointwise(a: string, b: string)
    requires |a| == |b|
    requires forall i :: 0 <= i < |a| ==> Utf16Units(a[i]) == Utf16Units(b[i])
    ensures JavaLength(a) == JavaLength(b)
  {
    if a != [] {
      JavaLengthPointwise(a[1..], b[1..]);
    }
  }

  /** `s.substring(0, n)` on whole chars: the longest prefix of `s` that fits in `n` code
      units. Where unit `n` falls inside a surrogate pair, the pair is left out whole. */
  function JavaPrefix(s: string, n: nat): (p: string)
    ensures |p| <= |s| && p == s[..|p|]
    ensures JavaLength(p) <= n
    ensures JavaLength(s) <= n ==> p == s
    ensures |p| < |s| ==> JavaLength(p) + Utf16Units(s[|p|]) > n
  {
    if s == [] || Utf16Units(s[0]) > n then []
    else
      var rest := JavaPrefix(s[1..], n - Utf16Units(s[0]));
      assert ([s[0]] + rest)[1..] == rest;
      [s[0]] + rest
  }

  /** A text longer than `n` units loses at least one char to the cut. */
  lemma JavaPrefixOfLonger(s: string, n: nat)
    requires JavaLength(s) > n
    ensures |JavaPrefix(s, n)| < |s|
  {
    var p := JavaPrefix(s, n);
    assert s[..|s|] == s;
    assert p != s;
  }

  // ---------------------------------------------------------------------------
  // trim()
  // ---------------------------------------------------------------------------

  /** `String.trim` removes every leading and trailing char whose code is at most U+0020. */
  predicate IsTrimmable(c: char) {
    c <= ' '
  }

  /** Drops the leading trimmable chars. */
  function TrimStart(s: string): (r: string)
    ensures |r| <= |s| && r == s[|s| - |r|..]
    ensures forall k :: 0 <= k < |s| - |r| ==> IsTrimmable(s[k])
    ensures r != [] ==> !IsTrimmable(r[0])
  {
    if |s| > 0 && IsTrimmable(s[0]) then TrimStart(s[1..]) else s
  }

  /** Drops the trailing trimmable chars. */
  function TrimEnd(s: string): (r: string)
    ensures |r| <= |s| && r == s[..|r|]
    ensures forall k :: |r| <= k < |s| ==> IsTrimmable(s[k])
    ensures r != [] ==> !IsTrimmable(r[|r| - 1])
  {
    if |s| > 0 && IsTrimmable(s[|s| - 1]) then TrimEnd(s[..|s| - 1]) else s
  }

  /** `s.trim()`: what is left of `s` once its trimmable ends are gone; `TrimIsInfix`
      says which chars those are. */
  function Trim(s: string): (r: string)
    ensures |r| <= |s|
    ensures r != [] ==> !IsTrimmable(r[0]) && !IsTrimmable(r[|r| - 1])
  {
    TrimEnd(TrimStart(s))
  }

  /** `s.trim()` is an infix of `s`, and every char it drops, at either end, is trimmable. */
  lemma TrimIsInfix(s: string)
    ensures exists i, j | 0 <= i <= j <= |s| ::
              Trim(s) == s[i..j] &&
              (forall k :: 0 <= k < i ==> IsTrimmable(s[k])) &&
              (forall k :: j <= k < |s| ==> IsTrimmable(s[k]))
  {
    var t := TrimStart(s);
    var i := |s| - |t|;
    var j := i + |Trim(s)|;
    assert Trim(s) == s[i..j];
  }

  /** A string that neither starts nor ends with a trimmable char is its own trim. */
  lemma TrimOfTrimmed(s: string)
    requires s != [] ==> !IsTrimmable(s[0]) && !IsTrimmable(s[|s| - 1])
    ensures Trim(s) == s
  {
    if s != [] {
      TrimStartOfTrimmed(s);
      TrimEndOfTrimmed(s);
      assert TrimEnd(TrimStart(s)) == s;
    } else {
      assert TrimStart(s) == s;
    }
  }

  lemma TrimStartOfTrimmed(s: string)
    requires s != [] && !IsTrimmable(s[0])
    ensures TrimStart(s) == s
  {
  }

  lemma TrimEndOfTrimmed(s: string)
    requires s != [] && !IsTrimmable(s[|s| - 1])
    ensures TrimEnd(s) == s
  {
  }

  /** Trimming twice is trimming once. */
  lemma TrimIdempotent(s: string)
    ensures Trim(Trim(s)) == Trim(s)
  {
    TrimOfTrimmed(Trim(s));
  }

  // ---------------------------------------------------------------------------
  // replace(CharSequence, CharSequence) with a one-character target
  // ---------------------------------------------------------------------------

  /** `s.replace("" + c, rep)`: every occurrence of `c` is replaced by `rep`, left to right. */
  function ReplaceChar(s: string, c: char, rep: string): (r: string)
    ensures c !in s ==> r == s
    ensures c !in rep ==> c !in r
    ensures forall d :: d !in s && d !in rep ==> d !in r
    ensures |rep| >= 1 ==> |r| >= |s|
    ensures |rep| > 1 && c in s ==> |r| > |s|
  {
    if s == [] then []
    else (if s[0] == c then rep else [s[0]]) + ReplaceChar(s[1..], c, rep)
  }

  /** A one-for-one replacement maps each char in place. */
  lemma {:induction false} ReplaceCharAt(s: string, c: char, d: char)
    ensures |ReplaceChar(s, c, [d])| == |s|
    ensures forall i :: 0 <= i < |s| ==>
      ReplaceChar(s, c, [d])[i] == if s[i] == c then d else s[i]
  {
    if s != [] {
      ReplaceCharAt(s[1..], c, d);
    }
  }

  // ---------------------------------------------------------------------------
  // split(",")
  // ---------------------------------------------------------------------------

  /** `String.join(sep, parts)` */
  function Join(parts: seq<string>, sep: string): string {
    if |parts| == 0 then []
    else if |parts| == 1 then parts[0]
    else parts[0] + sep + Join(parts[1..], sep)
  }

  /** Every piece between separators, empty ones included (`split(sep, -1)`). */
  function SplitAll(s: string, sep: char): (parts: seq<string>)
    ensures |parts| >= 1
    ensures forall p | p in parts :: sep !in p
  {
    if s == [] then [[]]
    else
      var rest := SplitAll(s[1..], sep);
      if s[0] == sep then [[]] + rest
      else [[s[0]] + rest[0]] + rest[1..]
  }

  /** Joining the pieces with the separator gives back the string. */
  lemma {:induction false} SplitAllJoin(s: string, sep: char)
    ensures Join(SplitAll(s, sep), [sep]) == s
  {
    if s != [] {
      var rest := SplitAll(s[1..], sep);
      SplitAllJoin(s[1..], sep);
      if s[0] == sep {
        assert SplitAll(s, sep) == [[]] + rest;
        assert ([[]] + rest)[1..] == rest;
      } else {
        var parts := SplitAll(s, sep);
        assert parts == [[s[0]] + rest[0]] + rest[1..];
        if |rest| == 1 {
          assert parts == [[s[0]] + rest[0]];
        } else {
          assert parts[1..] == rest[1..];
          assert Join(rest, [sep]) == rest[0] + [sep] + Join(rest[1..], [sep]);
        }
      }
    }
  }

  /** Each part occurs in the join. */
  lemma {:induction false} JoinContains(parts: seq<string>, sep: string, i: nat)
    requires i < |parts|
    ensures Contains(Join(parts, sep), parts[i])
  {
    if |parts| == 1 {
      ContainsMiddle([], parts[0], []);
      assert [] + parts[0] + [] == parts[0];
    } else if i == 0 {
      ContainsMiddle([], parts[0], sep + Join(parts[1..], sep));
      assert [] + parts[0] + (sep + Join(parts[1..], sep)) == Join(parts, sep);
    } else {
      JoinContains(parts[1..], sep, i - 1);
      ContainsWithin(parts[0] + sep, Join(parts[1..], sep), [], parts[i]);
      assert parts[0] + sep + Join(parts[1..], sep) + [] == Join(parts, sep);
    }
  }

  /** Removes the empty strings at the end of a split result. */
  function DropTrailingEmpty(parts: seq<string>): (r: seq<string>)
    ensures |r| <= |parts| && r == parts[..|r|]
    ensures r != [] ==> r[|r| - 1] != []
    ensures forall k :: |r| <= k < |parts| ==> parts[k] == []
  {
    if |parts| > 0 && parts[|parts| - 1] == [] then DropTrailingEmpty(parts[..|parts| - 1])
    else parts
  }

  /** `s.split(sep)` for a separator that is one plain char: when the separator does not
      occur the result is the whole string (so `"".split(",")` has one element); otherwise
      the pieces with trailing empty strings removed. */
  function JavaSplit(s: string, sep: char): (r: seq<string>)
    ensures sep !in s ==> r == [s]
    ensures sep in s ==> r == DropTrailingEmpty(SplitAll(s, sep))
    ensures forall p | p in r :: sep !in p
  {
    if sep !in s then [s] else DropTrailingEmpty(SplitAll(s, sep))
  }

  /** Joining one more part appends the separator and the part. */
  lemma {:induction false} JoinSnoc(parts: seq<string>, x: string, sep: string)
    requires parts != []
    ensures Join(parts + [x], sep) == Join(parts, sep) + sep + x
  {
    if |parts| > 1 {
      assert (parts + [x])[1..] == parts[1..] + [x];
      JoinSnoc(parts[1..], x, sep);
    }
  }

  /** A piece without the separator, followed by the separator, is split off first. */
  lemma {:induction false} SplitAllCons(p: string, sep: char, rest: string)
    requires sep !in p
    ensures SplitAll(p + [sep] + rest, sep) == [p] + SplitAll(rest, sep)
  {
    if p != [] {
      var s := p + [sep] + rest;
      assert s[0] == p[0] && s[1..] == p[1..] + [sep] + rest;
      SplitAllCons(p[1..], sep, rest);
      var r := SplitAll(s[1..], sep);
      assert r == [p[1..]] + SplitAll(rest, sep);
      assert [p[0]] + r[0] == p;
      assert r[1..] == SplitAll(rest, sep);
    }
  }

  /** A string without the separator is a single piece. */
  lemma {:induction false} SplitAllNone(p: string, sep: char)
    requires sep !in p
    ensures SplitAll(p, sep) == [p]
  {
    if p != [] {
      SplitAllNone(p[1..], sep);
      assert [p[0]] + p[1..] == p;
    }
  }

  /** Splitting the join of separator-free parts gives the parts back. */
  lemma {:induction false} JoinSplitAll(parts: seq<string>, sep: char)
    requires parts != []
    requires forall p | p in parts :: sep !in p
    ensures SplitAll(Join(parts, [sep]), sep) == parts
  {
    if |parts| == 1 {
      SplitAllNone(parts[0], sep);
    } else {
      JoinSplitAll(parts[1..], sep);
      SplitAllCons(parts[0], sep, Join(parts[1..], [sep]));
    }
  }

  /** Joining two or more separator-free parts, the last non-empty, and splitting the result
      again gives back the parts. */
  lemma JavaSplitOfJoin(parts: seq<string>, sep: char)
    requires |parts| >= 2
    requires forall p | p in parts :: sep !in p
    requires parts[|parts| - 1] != []
    ensures JavaSplit(Join(parts, [sep]), sep) == parts
  {
    var s := Join(parts, [sep]);
    JoinSplitAll(parts, sep);
    assert s == parts[0] + [sep] + Join(parts[1..], [sep]);
    assert s[|parts[0]|] == sep;
  }

  /** Dropping trailing empty parts only drops separators from the end of the join. */
  lemma {:induction false} DropTrailingEmptyJoin(parts: seq<string>, sep: char)
    ensures StartsWith(Join(parts, [sep]), Join(DropTrailingEmpty(parts), [sep]))
    ensures forall k :: |Join(DropTrailingEmpty(parts), [sep])| <= k < |Join(parts, [sep])| ==>
      Join(parts, [sep])[k] == sep
  {
    if |parts| > 0 && parts[|parts| - 1] == [] {
      var init := parts[..|parts| - 1];
      assert parts == init + [[]];
      DropTrailingEmptyJoin(init, sep);
      if init != [] {
        JoinSnoc(init, [], [sep]);
      }
    }
  }

  /** `split` loses nothing but separators at the end of the string: the join of its result
      is a prefix of the string and the rest of the string is separators. */
  lemma JavaSplitJoin(s: string, sep: char)
    ensures StartsWith(s, Join(JavaSplit(s, sep), [sep]))
    ensures forall k :: |Join(JavaSplit(s, sep), [sep])| <= k < |s| ==> s[k] == sep
  {
    if sep in s {
      SplitAllJoin(s, sep);
      DropTrailingEmptyJoin(SplitAll(s, sep), sep);
    }
  }

  // ---------------------------------------------------------------------------
  // Case
  // ---------------------------------------------------------------------------

  /** `Character.toLowerCase` on the ASCII letters. */
  function LowerChar(c: char): char {
    if 'A' <= c <= 'Z' then (c as int + 32) as char else c
  }

  /** `s.toLowerCase()` (ASCII letters only). */
  function ToLower(s: string): (r: string)
    ensures |r| == |s|
  {
    if s == [] then [] else [LowerChar(s[0])] + ToLower(s[1..])
  }

  /** Lower-casing maps each char in place: upper-case ASCII letters move down by 32, every
      other char is kept. */
  lemma {:induction false} ToLowerAt(s: string)
    ensures forall i :: 0 <= i < |s| ==>
      ToLower(s)[i] == (if 'A' <= s[i] <= 'Z' then (s[i] as int + 32) as char else s[i])
  {
    if s != [] {
      ToLowerAt(s[1..]);
    }
  }

  /** `a.equalsIgnoreCase(b)` (ASCII letters only). */
  predicate EqualsIgnoreCase(a: string, b: string) {
    ToLower(a) == ToLower(b)
  }

  // ---------------------------------------------------------------------------
  // Numbers in string concatenation
  // ---------------------------------------------------------------------------

  predicate IsDigit(c: char) {
    '0' <= c <= '9'
  }

  /** The digit a char stands for. */
  function DigitValue(c: char): (v: nat)
    requires IsDigit(c)
    ensures v < 10
  {
    c as int - '0' as int
  }

  /** The char that stands for digit `k`. */
  function DigitChar(k: nat): (c: char)
    requires k < 10
    ensures IsDigit(c) && DigitValue(c) == k
  {
    ('0' as int + k) as char
  }

  /** The number a string of decimal digits spells, most significant digit first. */
  function DecimalValue(s: string): nat
    requires forall i :: 0 <= i < |s| ==> IsDigit(s[i])
  {
    if s == [] then 0 else DecimalValue(s[..|s| - 1]) * 10 + DigitValue(s[|s| - 1])
  }

  /** The decimal rendering of a non-negative number, as `"" + n` gives it: digits that
      spell `n`, with no leading zero unless `n` is zero. */
  function NatToString(n: nat): (r: string)
    ensures |r| >= 1
    ensures forall i :: 0 <= i < |r| ==> IsDigit(r[i])
    ensures DecimalValue(r) == n
    ensures r[0] == '0' <==> n == 0
  {
    var d := [DigitChar(n % 10)];
    if n < 10 then d
    else
      var high := NatToString(n / 10);
      assert (high + d)[..|high + d| - 1] == high;
      high + d
  }
}
