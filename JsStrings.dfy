/** The JavaScript built-ins the core relies on, on `string == seq<char>`:
    `String.prototype.trim`, `split` with a one-character separator, the
    decimal rendering of a count, `[...new Set(xs)]` and the default order of
    `Array.prototype.sort` on strings. */
module JsStrings {

  // ---------------------------------------------------------------- trim

  /** WhiteSpace and LineTerminator code points of ECMA-262: what `trim` removes. */
  predicate IsJsWhitespace(c: char) {
    || c == '\t' || c == '\U{000B}' || c == '\U{000C}' || c == ' '
    || c == '\U{00A0}' || c == '\U{FEFF}' || c == '\U{1680}'
    || ('\U{2000}' <= c <= '\U{200A}')
    || c == '\U{202F}' || c == '\U{205F}' || c == '\U{3000}'
    || c == '\n' || c == '\r' || c == '\U{2028}' || c == '\U{2029}'
  }

  /** Empty or made only of whitespace. */
  predicate Blank(s: string) {
    forall i :: 0 <= i < |s| ==> IsJsWhitespace(s[i])
  }

  /** Drops the leading whitespace: the result is a suffix of `s` that does
      not start with whitespace, and everything dropped was whitespace. */
  function TrimStart(s: string): (r: string)
    ensures |r| <= |s| && r == s[|s| - |r|..]
    ensures r != [] ==> !IsJsWhitespace(r[0])
    ensures Blank(s[..|s| - |r|])
  {
    if s != [] && IsJsWhitespace(s[0]) then TrimStart(s[1..]) else s
  }

  /** Drops the trailing whitespace: the result is a prefix of `s` that does
      not end with whitespace, and everything dropped was whitespace. */
  function TrimEnd(s: string): (r: string)
    ensures |r| <= |s| && r == s[..|r|]
    ensures r != [] ==> !IsJsWhitespace(r[|r| - 1])
    ensures Blank(s[|r|..])
  {
    if s != [] && IsJsWhitespace(s[|s| - 1]) then TrimEnd(s[..|s| - 1]) else s
  }

  /** `s.trim()`. */
  function Trim(s: string): string {
    TrimEnd(TrimStart(s))
  }

  /** `t` occurs in `s` at offset `k` with only whitespace before and after it. */
  predicate InnerPieceAt(s: string, k: int, t: string) {
    && 0 <= k <= |s| - |t|
    && t == s[k..k + |t|]
    && Blank(s[..k])
    && Blank(s[k + |t|..])
  }

  /** Dropping `m` more characters from the suffix at `k` is the suffix at `k + m`. */
  lemma SliceOfSuffix(s: string, k: nat, m: nat)
    requires k + m <= |s|
    ensures s[k..][m..] == s[k + m..]
  {
  }

  /** A prefix `r` of the suffix `t` of `s` at `k`, with whitespace only
      before `k` and after `r` in `t`, is an inner piece of `s`. */
  lemma PrefixOfSuffixIsPiece(s: string, k: nat, t: string, r: string)
    requires k <= |s| && t == s[k..]
    requires |r| <= |t| && r == t[..|r|]
    requires Blank(s[..k]) && Blank(t[|r|..])
    ensures InnerPieceAt(s, k, r)
  {
    assert s[k..k + |r|] == t[..|r|];
    SliceOfSuffix(s, k, |r|);
  }

  /** `s.trim()` is a contiguous piece of `s` with no whitespace at either
      end, obtained by dropping whitespace only. */
  lemma TrimIsInnerPiece(s: string)
    ensures exists k :: InnerPieceAt(s, k, Trim(s))
    ensures Trim(s) != [] ==> !IsJsWhitespace(Trim(s)[0]) && !IsJsWhitespace(Trim(s)[|Trim(s)| - 1])
  {
    var t := TrimStart(s);
    var r := TrimEnd(t);
    var k := |s| - |t|;
    PrefixOfSuffixIsPiece(s, k, t, r);
    assert r == Trim(s);
    if r != [] {
      assert r[0] == t[0];
    }
  }

  /** `s.trim()` is empty exactly when `s` is empty or whitespace only. */
  lemma TrimEmptyIffBlank(s: string)
    ensures Trim(s) == "" <==> Blank(s)
    ensures Trim(s) != "" ==> !Blank(Trim(s))
  {
    if !Blank(s) {
      var t := TrimStart(s);
      var i :| 0 <= i < |s| && !IsJsWhitespace(s[i]);
      assert !Blank(t) by {
        assert t[i - (|s| - |t|)] == s[i];
      }
    }
  }

  /** A string with no whitespace at either end trims to itself. */
  lemma TrimUntouched(s: string)
    requires s != [] ==> !IsJsWhitespace(s[0]) && !IsJsWhitespace(s[|s| - 1])
    ensures Trim(s) == s
  {
  }

  /** Trimming twice is trimming once. */
  lemma TrimIdempotent(s: string)
    ensures Trim(Trim(s)) == Trim(s)
  {
    var r := Trim(s);
    assert TrimStart(r) == r;
    assert TrimEnd(r) == r;
  }

  // ---------------------------------------------------------------- split

  /** Number of occurrences of `c` in `s`. */
  function Count(s: string, c: char): nat {
    if s == [] then 0 else (if s[0] == c then 1 else 0) + Count(s[1..], c)
  }

  /** `s.split(sep)` for a one-character separator: the pieces between the
      separators, so there is always one piece more than separators, even
      for the empty string, and no piece contains the separator. */
  function Split(s: string, sep: char): (parts: seq<string>)
    ensures |parts| == Count(s, sep) + 1
    ensures forall i :: 0 <= i < |parts| ==> sep !in parts[i]
  {
    if s == [] then [""]
    else
      var rest := Split(s[1..], sep);
      if s[0] == sep then [""] + rest
      else [[s[0]] + rest[0]] + rest[1..]
  }

  /** Occurrences add up over a concatenation. */
  lemma {:induction false} CountConcat(a: string, b: string, c: char)
    ensures Count(a + b, c) == Count(a, c) + Count(b, c)
  {
    if a == [] {
      assert a + b == b;
    } else {
      assert (a + b)[0] == a[0] && (a + b)[1..] == a[1..] + b;
      CountConcat(a[1..], b, c);
    }
  }

  /** `parts.join(sep)`. */
  function Join(parts: seq<string>, sep: char): string {
    if parts == [] then ""
    else if |parts| == 1 then parts[0]
    else parts[0] + [sep] + Join(parts[1..], sep)
  }

  /** Splitting and joining with the same separator gives back the string. */
  lemma {:induction false} JoinSplit(s: string, sep: char)
    ensures Join(Split(s, sep), sep) == s
  {
    if s != [] {
      var rest := Split(s[1..], sep);
      JoinSplit(s[1..], sep);
      if s[0] == sep {
        assert Split(s, sep) == [""] + rest;
        assert ([""] + rest)[1..] == rest;
      } else {
        var parts := [[s[0]] + rest[0]] + rest[1..];
        assert Split(s, sep) == parts;
        if |rest| == 1 {
          assert Join(rest, sep) == rest[0];
        } else {
          assert Join(rest, sep) == rest[0] + [sep] + Join(rest[1..], sep);
          assert parts[1..] == rest[1..];
        }
      }
    }
  }

  /** Joining pieces free of the separator puts one separator between
      each two of them and no other. */
  lemma {:induction false} CountJoin(parts: seq<string>, sep: char)
    requires parts != []
    requires forall i :: 0 <= i < |parts| ==> sep !in parts[i]
    ensures Count(Join(parts, sep), sep) == |parts| - 1
  {
    if |parts| == 1 {
      CountAbsent(parts[0], sep);
    } else {
      CountJoin(parts[1..], sep);
      CountAbsent(parts[0], sep);
      CountConcat(parts[0], [sep], sep);
      CountConcat(parts[0] + [sep], Join(parts[1..], sep), sep);
    }
  }

  /** A character that does not occur is counted zero times. */
  lemma {:induction false} CountAbsent(s: string, c: char)
    requires c !in s
    ensures Count(s, c) == 0
  {
    if s != [] {
      assert c !in s[1..];
      CountAbsent(s[1..], c);
    }
  }

  // ---------------------------------------------------------------- numbers

  /** The decimal digit for `d`. */
  function DigitChar(d: nat): char
    requires d < 10
  {
    ('0' as int + d) as char
  }

  /** The value of a decimal digit character. */
  function DigitValue(c: char): nat
    requires '0' <= c <= '9'
  {
    c as nat - '0' as nat
  }

  /** The value of a string of decimal digits. */
  function DigitsValue(s: string): nat
    requires forall i :: 0 <= i < |s| ==> '0' <= s[i] <= '9'
  {
    if s == [] then 0 else 10 * DigitsValue(s[..|s| - 1]) + DigitValue(s[|s| - 1])
  }

  /** How a count is written in a template literal: decimal, no sign, no
      leading zero. */
  function NatToString(n: nat): (s: string)
    ensures s != []
    ensures forall i :: 0 <= i < |s| ==> '0' <= s[i] <= '9'
    ensures s[0] == '0' ==> n == 0 && s == "0"
  {
    if n < 10 then [DigitChar(n)] else NatToString(n / 10) + [DigitChar(n % 10)]
  }

  /** Reading back the decimal rendering gives the count. */
  lemma {:induction false} NatToStringValue(n: nat)
    ensures DigitsValue(NatToString(n)) == n
  {
    if n >= 10 {
      var q, d := n / 10, n % 10;
      NatToStringValue(q);
      var s := NatToString(n);
      assert s == NatToString(q) + [DigitChar(d)];
      assert s[..|s| - 1] == NatToString(q);
      assert DigitsValue(s) == 10 * DigitsValue(NatToString(q)) + DigitValue(DigitChar(d));
    }
  }

  // ---------------------------------------------------------------- Set and sort

  /** No element occurs twice. */
  predicate Distinct<T(==)>(s: seq<T>) {
    forall i, j :: 0 <= i < j < |s| ==> s[i] != s[j]
  }

  /** `[...new Set(s)]`: the elements of `s`, each once. The construction
      keeps them in order of first occurrence; only membership and
      distinctness are stated, since the one caller sorts the result. */
  function Unique(s: seq<string>): (r: seq<string>)
    ensures forall x :: x in r <==> x in s
    ensures Distinct(r)
  {
    if s == [] then []
    else
      var rest := Unique(s[..|s| - 1]);
      var x := s[|s| - 1];
      assert forall y :: y in s <==> y in s[..|s| - 1] || y == x;
      if x in rest then rest else rest + [x]
  }

  /** The default order of `Array.prototype.sort` on strings: lexicographic
      by character code, a proper prefix first. */
  predicate StrLt(a: string, b: string) {
    if a == [] then b != []
    else if b == [] then false
    else a[0] < b[0] || (a[0] == b[0] && StrLt(a[1..], b[1..]))
  }

  lemma {:induction false} StrLtIrreflexive(a: string)
    ensures !StrLt(a, a)
  {
    if a != [] {
      StrLtIrreflexive(a[1..]);
    }
  }

  lemma {:induction false} StrLtTransitive(a: string, b: string, c: string)
    requires StrLt(a, b) && StrLt(b, c)
    ensures StrLt(a, c)
  {
    if a != [] && a[0] == b[0] && b[0] == c[0] {
      StrLtTransitive(a[1..], b[1..], c[1..]);
    }
  }

  lemma {:induction false} StrLtTotal(a: string, b: string)
    requires a != b
    ensures StrLt(a, b) || StrLt(b, a)
  {
    if a != [] && b != [] && a[0] == b[0] {
      assert a == [a[0]] + a[1..] && b == [b[0]] + b[1..];
      StrLtTotal(a[1..], b[1..]);
    }
  }

  /** Every element is smaller than every later one. */
  predicate StrictlySorted(s: seq<string>) {
    forall i, j :: 0 <= i < j < |s| ==> StrLt(s[i], s[j])
  }

  /** A strictly ascending list has no duplicates. */
  lemma StrictlySortedDistinct(s: seq<string>)
    requires StrictlySorted(s)
    ensures Distinct(s)
  {
    forall i, j | 0 <= i < j < |s| ensures s[i] != s[j] {
      StrLtIrreflexive(s[i]);
    }
  }

  /** Inserts `x` in front of the first element not smaller than it. */
  function Insert(x: string, s: seq<string>): (r: seq<string>)
    ensures multiset(r) == multiset(s) + multiset{x}
  {
    if s == [] then [x]
    else if !StrLt(s[0], x) then [x] + s
    else
      assert s == [s[0]] + s[1..];
      [s[0]] + Insert(x, s[1..])
  }

  /** Every element of `Insert(x, s)` is above `y` when `x` and every
      element of `s` are. */
  lemma InsertStaysAbove(y: string, x: string, s: seq<string>)
    requires StrLt(y, x) && forall k :: 0 <= k < |s| ==> StrLt(y, s[k])
    ensures forall j :: 0 <= j < |Insert(x, s)| ==> StrLt(y, Insert(x, s)[j])
  {
    var t := Insert(x, s);
    forall j | 0 <= j < |t| ensures StrLt(y, t[j]) {
      assert t[j] in multiset(t);
      if t[j] != x {
        assert t[j] in s;
      }
    }
  }

  lemma {:induction false} InsertSorted(x: string, s: seq<string>)
    requires StrictlySorted(s) && x !in s
    ensures StrictlySorted(Insert(x, s))
  {
    if s == [] {
    } else if !StrLt(s[0], x) {
      assert x != s[0];
      StrLtTotal(x, s[0]);
      forall j | 0 < j < |s| ensures StrLt(x, s[j]) {
        StrLtTransitive(x, s[0], s[j]);
      }
    } else {
      var tail := s[1..];
      assert StrictlySorted(tail);
      assert x !in tail;
      InsertSorted(x, tail);
      var t := Insert(x, tail);
      forall k | 0 <= k < |tail| ensures StrLt(s[0], tail[k]) {
        assert tail[k] == s[k + 1];
      }
      InsertStaysAbove(s[0], x, tail);
      var r := [s[0]] + t;
      forall i, j | 0 <= i < j < |r| ensures StrLt(r[i], r[j]) {
        if i == 0 {
          assert r[j] == t[j - 1];
        } else {
          assert r[i] == t[i - 1] && r[j] == t[j - 1];
        }
      }
    }
  }

  /** `s.sort()` with the default comparator, on a list without duplicates:
      the same elements, strictly ascending. */
  function Sort(s: seq<string>): (r: seq<string>)
    ensures multiset(r) == multiset(s)
    ensures Distinct(s) ==> StrictlySorted(r)
  {
    if s == [] then []
    else
      var init := s[..|s| - 1];
      var x := s[|s| - 1];
      assert s == init + [x];
      var sorted := Sort(init);
      assert Distinct(s) ==> StrictlySorted(Insert(x, sorted)) by {
        if Distinct(s) {
          assert Distinct(init);
          assert x !in init;
          assert x !in multiset(sorted);
          InsertSorted(x, sorted);
        }
      }
      Insert(x, sorted)
  }
}
