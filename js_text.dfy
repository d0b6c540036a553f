/**
 * The few JavaScript string built-ins the dashboard relies on:
 * `String.prototype.trim`, `split` on a one-character separator, `startsWith`,
 * and the decimal rendering of a non-negative integer in a template literal.
 * A Dafny `char` is a Unicode scalar value; every character these functions
 * inspect lies in the Basic Multilingual Plane, where it is one UTF-16 unit.
 */
module JsText {

  /** The ECMAScript WhiteSpace and LineTerminator code points, which `trim` removes. */
  predicate IsWhitespace(c: char) {
    || c == '\t' || c == '\n' || c == '\U{B}' || c == '\U{C}' || c == '\r' || c == ' '
    || c == '\U{A0}' || c == '\U{1680}' || ('\U{2000}' <= c <= '\U{200A}')
    || c == '\U{2028}' || c == '\U{2029}' || c == '\U{202F}' || c == '\U{205F}'
    || c == '\U{3000}' || c == '\U{FEFF}'
  }

  predicate AllWhitespace(s: string) {
    forall k :: 0 <= k < |s| ==> IsWhitespace(s[k])
  }

  /** Drops the leading whitespace: the result is the suffix that starts at the first other character. */
  function TrimStart(s: string): (r: string)
    ensures |r| <= |s| && r == s[|s| - |r|..]
    ensures forall k :: 0 <= k < |s| - |r| ==> IsWhitespace(s[k])
    ensures r != [] ==> !IsWhitespace(r[0])
  {
    if s != [] && IsWhitespace(s[0]) then TrimStart(s[1..]) else s
  }

  /** Drops the trailing whitespace: the result is the prefix that ends at the last other character. */
  function TrimEnd(s: string): (r: string)
    ensures |r| <= |s| && r == s[..|r|]
    ensures forall k :: |r| <= k < |s| ==> IsWhitespace(s[k])
    ensures r != [] ==> !IsWhitespace(r[|r| - 1])
  {
    if s != [] && IsWhitespace(s[|s| - 1]) then TrimEnd(s[..|s| - 1]) else s
  }

  /** `s.trim()`; it is empty (falsy) exactly when every character of `s` is whitespace. */
  function Trim(s: string): (r: string)
    ensures |r| <= |s|
    ensures r == [] <==> AllWhitespace(s)
    ensures r != [] ==> !IsWhitespace(r[0]) && !IsWhitespace(r[|r| - 1])
  {
    TrimEnd(TrimStart(s))
  }

  /** `s.trim()` is the slice of `s` left after cutting whitespace, and only whitespace, from both ends. */
  lemma TrimSlice(s: string)
    ensures exists i, j :: 0 <= i <= j <= |s| && Trim(s) == s[i..j] && AllWhitespace(s[..i]) && AllWhitespace(s[j..])
  {
    var t := TrimStart(s);
    var r := TrimEnd(t);
    var i := |s| - |t|;
    var j := i + |r|;
    assert t == s[i..];
    assert r == t[..|r|];
    assert r == s[i..j];
    assert AllWhitespace(s[..i]) by {
      forall k | 0 <= k < i ensures IsWhitespace(s[..i][k]) {
        assert s[..i][k] == s[k];
      }
    }
    assert AllWhitespace(s[j..]) by {
      forall k | 0 <= k < |s| - j ensures IsWhitespace(s[j..][k]) {
        assert s[j..][k] == t[|r| + k];
      }
    }
  }

  /** `s.startsWith(prefix)`. */
  predicate StartsWith(s: string, prefix: string) {
    |prefix| <= |s| && s[..|prefix|] == prefix
  }

  lemma StartsWithIff(s: string, prefix: string)
    ensures StartsWith(s, prefix) <==> exists rest :: s == prefix + rest
  {
    if StartsWith(s, prefix) {
      assert s == prefix + s[|prefix|..];
    }
  }

  /** `s.split(sep)` for a one-character separator: the maximal separator-free pieces, in order. */
  function Split(s: string, sep: char): (parts: seq<string>)
    ensures |parts| >= 1
    ensures forall k :: 0 <= k < |parts| ==> sep !in parts[k]
  {
    if s == [] then [[]]
    else
      var rest := Split(s[1..], sep);
      if s[0] == sep then [[]] + rest
      else [[s[0]] + rest[0]] + rest[1..]
  }

  /** `parts.join(sep)`. */
  function Join(parts: seq<string>, sep: char): string
  {
    if |parts| == 0 then []
    else if |parts| == 1 then parts[0]
    else parts[0] + [sep] + Join(parts[1..], sep)
  }

  /** Joining the pieces of a split gives back the original string. */
  lemma {:induction false} JoinSplit(s: string, sep: char)
    ensures Join(Split(s, sep), sep) == s
  {
    if s != [] {
      var rest := Split(s[1..], sep);
      JoinSplit(s[1..], sep);
      if s[0] == sep {
        assert ([[]] + rest)[1..] == rest;
      } else if |rest| > 1 {
        var parts := [[s[0]] + rest[0]] + rest[1..];
        assert parts[1..] == rest[1..];
      }
      assert s == [s[0]] + s[1..];
    }
  }

  lemma {:induction false} SplitWithoutSeparator(p: string, sep: char)
    requires sep !in p
    ensures Split(p, sep) == [p]
  {
    if p != [] {
      SplitWithoutSeparator(p[1..], sep);
      assert [p[0]] + p[1..] == p;
    }
  }

  lemma {:induction false} SplitAfterPiece(p: string, t: string, sep: char)
    requires sep !in p
    ensures Split(p + [sep] + t, sep) == [p] + Split(t, sep)
  {
    var s := p + [sep] + t;
    if p == [] {
      assert s[0] == sep && s[1..] == t;
    } else {
      assert s[0] == p[0] && s[1..] == p[1..] + [sep] + t;
      SplitAfterPiece(p[1..], t, sep);
      assert [p[0]] + p[1..] == p;
    }
  }

  /** Splitting a join of separator-free pieces gives back the pieces: `Split` is the only such decomposition. */
  lemma {:induction false} SplitJoin(parts: seq<string>, sep: char)
    requires |parts| >= 1
    requires forall k :: 0 <= k < |parts| ==> sep !in parts[k]
    ensures Split(Join(parts, sep), sep) == parts
  {
    if |parts| == 1 {
      SplitWithoutSeparator(parts[0], sep);
    } else {
      SplitJoin(parts[1..], sep);
      SplitAfterPiece(parts[0], Join(parts[1..], sep), sep);
      assert [parts[0]] + parts[1..] == parts;
    }
  }

  predicate AllPiecesWhitespace(parts: seq<string>) {
    forall k :: 0 <= k < |parts| ==> AllWhitespace(parts[k])
  }

  /** A string is all whitespace exactly when every piece of its split on a whitespace separator is. */
  lemma {:induction false} AllWhitespaceSplit(s: string, sep: char)
    requires IsWhitespace(sep)
    ensures AllWhitespace(s) <==> AllPiecesWhitespace(Split(s, sep))
  {
    if s != [] {
      var rest := Split(s[1..], sep);
      var parts := Split(s, sep);
      AllWhitespaceSplit(s[1..], sep);
      assert AllWhitespace(s) <==> IsWhitespace(s[0]) && AllWhitespace(s[1..]) by {
        if IsWhitespace(s[0]) && AllWhitespace(s[1..]) {
          forall k | 0 <= k < |s| ensures IsWhitespace(s[k]) {
            if k > 0 { assert s[k] == s[1..][k - 1]; }
          }
        }
        if AllWhitespace(s) {
          forall k | 0 <= k < |s[1..]| ensures IsWhitespace(s[1..][k]) {
            assert s[1..][k] == s[k + 1];
          }
        }
      }
      if s[0] == sep {
        assert parts == [[]] + rest;
        assert forall k :: 1 <= k < |parts| ==> parts[k] == rest[k - 1];
        assert AllPiecesWhitespace(parts) <==> AllPiecesWhitespace(rest) by {
          if AllPiecesWhitespace(rest) {
            assert AllWhitespace(parts[0]);
          }
          if AllPiecesWhitespace(parts) {
            assert forall k :: 0 <= k < |rest| ==> rest[k] == parts[k + 1];
          }
        }
      } else {
        var head := [s[0]] + rest[0];
        assert parts == [head] + rest[1..];
        assert |parts| == |rest| && parts[0] == head;
        assert forall k :: 1 <= k < |parts| ==> parts[k] == rest[k];
        assert AllWhitespace(head) <==> IsWhitespace(s[0]) && AllWhitespace(rest[0]) by {
          assert forall k :: 1 <= k < |head| ==> head[k] == rest[0][k - 1];
          if AllWhitespace(head) {
            assert head[0] == s[0];
            forall k | 0 <= k < |rest[0]| ensures IsWhitespace(rest[0][k]) {
              assert head[k + 1] == rest[0][k];
            }
          }
        }
      }
    }
  }

  predicate IsDigit(c: char) {
    '0' <= c <= '9'
  }

  predicate AllDigits(s: string) {
    forall k :: 0 <= k < |s| ==> IsDigit(s[k])
  }

  function DigitChar(d: nat): (c: char)
    requires d < 10
    ensures IsDigit(c)
  {
    (d + '0' as int) as char
  }

  function DigitValue(c: char): (d: nat)
    requires IsDigit(c)
    ensures d < 10 && DigitChar(d) == c
  {
    c as int - '0' as int
  }

  /** The decimal rendering `${n}` of a non-negative integer: a non-empty run of digits, with no leading zero except for 0 itself. */
  function NatToString(n: nat): (r: string)
    ensures r != [] && AllDigits(r)
    ensures r[0] == '0' <==> n == 0
  {
    if n < 10 then [DigitChar(n)] else NatToString(n / 10) + [DigitChar(n % 10)]
  }

  /** The value of a run of decimal digits. */
  function ParseDigits(s: string): nat
    requires AllDigits(s)
  {
    if s == [] then 0 else 10 * ParseDigits(s[..|s| - 1]) + DigitValue(s[|s| - 1])
  }

  lemma {:induction false} ParseNatToString(n: nat)
    ensures ParseDigits(NatToString(n)) == n
  {
    if n >= 10 {
      var r := NatToString(n);
      assert r[..|r| - 1] == NatToString(n / 10);
      ParseNatToString(n / 10);
    }
  }

  /** Distinct numbers render as distinct strings. */
  lemma NatToStringInjective(a: nat, b: nat)
    ensures NatToString(a) == NatToString(b) ==> a == b
  {
    ParseNatToString(a);
    ParseNatToString(b);
  }
}
