/** Option, as used for JavaScript values that may be absent. */
module Wrappers {
  datatype Option<+T> = None | Some(value: T)
}

/**
 * The JavaScript string primitives the chat server and its clients rely on:
 * String.prototype.trim, the UTF-16 `length`, split, join, startsWith and
 * the decimal rendering of a number inside a template literal.
 */
module JsString {

  /** The characters `trim` strips: ECMAScript WhiteSpace and LineTerminator code points. */
  const Whitespace: set<char> := {
    '\t', '\n', '\U{000B}', '\U{000C}', '\r', ' ', '\U{00A0}', '\U{1680}',
    '\U{2000}', '\U{2001}', '\U{2002}', '\U{2003}', '\U{2004}', '\U{2005}',
    '\U{2006}', '\U{2007}', '\U{2008}', '\U{2009}', '\U{200A}',
    '\U{2028}', '\U{2029}', '\U{202F}', '\U{205F}', '\U{3000}', '\U{FEFF}'
  }

  predicate IsWhitespace(c: char)
  {
    c in Whitespace
  }

  predicate AllWhitespace(s: string)
  {
    forall i :: 0 <= i < |s| ==> IsWhitespace(s[i])
  }

  /** A string that `trim` leaves alone: empty, or neither end is whitespace. */
  predicate IsTrimmed(s: string)
  {
    s == [] || (!IsWhitespace(s[0]) && !IsWhitespace(s[|s| - 1]))
  }

  /** String.prototype.trim: strips whitespace from both ends. */
  function Trim(s: string): (r: string)
    ensures |r| <= |s|
    ensures IsTrimmed(r)
  {
    if s != [] && IsWhitespace(s[0]) then Trim(s[1..])
    else if s != [] && IsWhitespace(s[|s| - 1]) then Trim(s[..|s| - 1])
    else s
  }

  /** `trim` cuts a middle slice out of its input, and everything it cuts is whitespace. */
  lemma {:induction false} TrimIsSlice(s: string) returns (i: nat)
    ensures i + |Trim(s)| <= |s|
    ensures Trim(s) == s[i..i + |Trim(s)|]
    ensures AllWhitespace(s[..i]) && AllWhitespace(s[i + |Trim(s)|..])
  {
    if s != [] && IsWhitespace(s[0]) {
      var j := TrimIsSlice(s[1..]);
      i := SliceAfterLeading(s, j);
    } else if s != [] && IsWhitespace(s[|s| - 1]) {
      i := TrimIsSlice(s[..|s| - 1]);
      SliceBeforeTrailing(s, i);
    } else {
      i := 0;
    }
  }

  /** The inductive step of TrimIsSlice for a leading whitespace character. */
  lemma SliceAfterLeading(s: string, j: nat) returns (i: nat)
    requires s != [] && IsWhitespace(s[0])
    requires j + |Trim(s[1..])| <= |s| - 1
    requires Trim(s[1..]) == s[1..][j..j + |Trim(s[1..])|]
    requires AllWhitespace(s[1..][..j]) && AllWhitespace(s[1..][j + |Trim(s[1..])|..])
    ensures i + |Trim(s)| <= |s|
    ensures Trim(s) == s[i..i + |Trim(s)|]
    ensures AllWhitespace(s[..i]) && AllWhitespace(s[i + |Trim(s)|..])
  {
    var r := Trim(s[1..]);
    assert Trim(s) == r;
    i := j + 1;
    TailSlices(s, j, j + |r|);
    WhitespaceConcat([s[0]], s[1..][..j]);
  }

  /** Slices of `s[1..]` are the slices of s one position further on. */
  lemma TailSlices<T>(s: seq<T>, a: nat, b: nat)
    requires s != [] && a <= b <= |s| - 1
    ensures s[1..][a..b] == s[a + 1..b + 1]
    ensures s[..a + 1] == [s[0]] + s[1..][..a]
    ensures s[1..][b..] == s[b + 1..]
  {
  }

  /** Slices of `s[..|s| - 1]` are the slices of s that end before its last element. */
  lemma InitSlices<T>(s: seq<T>, a: nat, b: nat)
    requires s != [] && a <= b <= |s| - 1
    ensures s[..|s| - 1][a..b] == s[a..b]
    ensures s[..|s| - 1][..a] == s[..a]
    ensures s[b..] == s[..|s| - 1][b..] + [s[|s| - 1]]
  {
  }

  /** The inductive step of TrimIsSlice for a trailing whitespace character. */
  lemma SliceBeforeTrailing(s: string, i: nat)
    requires s != [] && !IsWhitespace(s[0]) && IsWhitespace(s[|s| - 1])
    requires i + |Trim(s[..|s| - 1])| <= |s| - 1
    requires Trim(s[..|s| - 1]) == s[..|s| - 1][i..i + |Trim(s[..|s| - 1])|]
    requires AllWhitespace(s[..|s| - 1][..i]) && AllWhitespace(s[..|s| - 1][i + |Trim(s[..|s| - 1])|..])
    ensures i + |Trim(s)| <= |s|
    ensures Trim(s) == s[i..i + |Trim(s)|]
    ensures AllWhitespace(s[..i]) && AllWhitespace(s[i + |Trim(s)|..])
  {
    var t := s[..|s| - 1];
    var r := Trim(t);
    assert Trim(s) == r;
    InitSlices(s, i, i + |r|);
    WhitespaceConcat(t[i + |r|..], [s[|s| - 1]]);
  }

  lemma WhitespaceConcat(a: string, b: string)
    requires AllWhitespace(a) && AllWhitespace(b)
    ensures AllWhitespace(a + b)
  {
    forall k | 0 <= k < |a + b| ensures IsWhitespace((a + b)[k]) {
      if k < |a| { assert (a + b)[k] == a[k]; } else { assert (a + b)[k] == b[k - |a|]; }
    }
  }

  /** A string whose ends are not whitespace is left unchanged. */
  lemma TrimOfTrimmed(s: string)
    requires IsTrimmed(s)
    ensures Trim(s) == s
  {
  }

  /** `trim` is idempotent. */
  lemma TrimIdempotent(s: string)
    ensures Trim(Trim(s)) == Trim(s)
  {
    TrimOfTrimmed(Trim(s));
  }

  /** `trim` yields the empty string exactly when the input is all whitespace. */
  lemma TrimEmptyIff(s: string)
    ensures Trim(s) == [] <==> AllWhitespace(s)
  {
    var i := TrimIsSlice(s);
    if Trim(s) == [] {
      assert s == s[..i] + s[i..];
      forall k | 0 <= k < |s| ensures IsWhitespace(s[k]) {
        if k < i { assert s[k] == s[..i][k]; } else { assert s[k] == s[i..][k - i]; }
      }
    } else {
      assert !IsWhitespace(s[i]) by { assert s[i] == Trim(s)[0]; }
    }
  }

  /**
   * The JavaScript `length` of a string: its number of UTF-16 code units. It
   * equals the number of characters exactly when none lies above U+FFFF.
   */
  function Utf16Length(s: string): (n: nat)
    ensures |s| <= n <= 2 * |s|
    ensures n == |s| <==> InBmp(s)
  {
    if s == [] then 0
    else
      var rest := Utf16Length(s[1..]);
      assert InBmp(s) <==> s[0] as int <= 0xFFFF && InBmp(s[1..]) by {
        assert forall i :: 0 <= i < |s| - 1 ==> s[1..][i] == s[i + 1];
      }
      (if s[0] as int > 0xFFFF then 2 else 1) + rest
  }

  /** One character counts one code unit, or two (a surrogate pair) above U+FFFF. */
  lemma Utf16LengthOfChar(c: char)
    ensures Utf16Length([c]) == if c as int > 0xFFFF then 2 else 1
  {
  }

  /** The code-unit count of a concatenation is the sum of the counts. */
  lemma {:induction false} Utf16LengthConcat(a: string, b: string)
    ensures Utf16Length(a + b) == Utf16Length(a) + Utf16Length(b)
  {
    if a == [] {
      assert a + b == b;
    } else {
      assert (a + b)[1..] == a[1..] + b;
      Utf16LengthConcat(a[1..], b);
    }
  }

  predicate InBmp(s: string)
  {
    forall i :: 0 <= i < |s| ==> s[i] as int <= 0xFFFF
  }

  /** For text in the Basic Multilingual Plane the JavaScript length is the number of characters. */
  lemma {:induction false} Utf16LengthOfBmp(s: string)
    requires InBmp(s)
    ensures Utf16Length(s) == |s|
  {
    if s != [] {
      assert InBmp(s[1..]) by {
        forall i | 0 <= i < |s| - 1 ensures s[1..][i] as int <= 0xFFFF { assert s[1..][i] == s[i + 1]; }
      }
      Utf16LengthOfBmp(s[1..]);
    }
  }

  /** String.prototype.startsWith, case-sensitive. */
  predicate StartsWith(s: string, prefix: string)
  {
    |prefix| <= |s| && s[..|prefix|] == prefix
  }

  /** String.prototype.split with a one-character separator: every separator starts a new part. */
  function Split(s: string, sep: char): (parts: seq<string>)
    ensures |parts| >= 1
    ensures forall i :: 0 <= i < |parts| ==> sep !in parts[i]
  {
    if s == [] then [""]
    else
      var rest := Split(s[1..], sep);
      if s[0] == sep then [""] + rest else [[s[0]] + rest[0]] + rest[1..]
  }

  /** Array.prototype.join. */
  function Join(parts: seq<string>, sep: string): string
  {
    if parts == [] then ""
    else if |parts| == 1 then parts[0]
    else parts[0] + sep + Join(parts[1..], sep)
  }

  /** Joining the parts of a split with the separator gives back the original string. */
  lemma {:induction false} JoinSplit(s: string, sep: char)
    ensures Join(Split(s, sep), [sep]) == s
  {
    if s != [] {
      var rest := Split(s[1..], sep);
      JoinSplit(s[1..], sep);
      if s[0] == sep {
        assert Split(s, sep) == [""] + rest;
        assert s == [sep] + s[1..];
      } else if |rest| == 1 {
        assert Split(s, sep) == [[s[0]] + rest[0]];
        assert s == [s[0]] + s[1..];
      } else {
        var parts := Split(s, sep);
        assert parts == [[s[0]] + rest[0]] + rest[1..];
        assert parts[1..] == rest[1..];
        assert Join(rest, [sep]) == rest[0] + [sep] + Join(rest[1..], [sep]);
        assert s == [s[0]] + s[1..];
      }
    }
  }

  /** Splitting a join of separator-free parts gives back the parts. */
  lemma {:induction false} SplitJoin(parts: seq<string>, sep: char)
    requires |parts| >= 1
    requires forall i :: 0 <= i < |parts| ==> sep !in parts[i]
    ensures Split(Join(parts, [sep]), sep) == parts
    decreases |parts|, |parts[0]|
  {
    if parts[0] == [] {
      if |parts| == 1 {
        assert Join(parts, [sep]) == "";
        assert parts == [""];
      } else {
        var tail := parts[1..];
        SplitJoin(tail, sep);
        var s := Join(parts, [sep]);
        assert s == [sep] + Join(tail, [sep]);
        assert s[1..] == Join(tail, [sep]);
        assert parts == [""] + tail;
      }
    } else {
      var c := parts[0][0];
      var shorter := [parts[0][1..]] + parts[1..];
      assert sep !in shorter[0];
      assert forall i :: 1 <= i < |shorter| ==> shorter[i] == parts[i];
      SplitJoin(shorter, sep);
      JoinHeadChar(parts, [sep]);
      SplitCons(c, Join(shorter, [sep]), sep);
      assert [c] + parts[0][1..] == parts[0];
      assert shorter[1..] == parts[1..];
    }
  }

  /** A leading character other than the separator extends the first part. */
  lemma SplitCons(c: char, t: string, sep: char)
    requires c != sep
    ensures Split([c] + t, sep) == [[c] + Split(t, sep)[0]] + Split(t, sep)[1..]
  {
    assert ([c] + t)[1..] == t;
  }

  /** The first character of a joined string is the first character of the first part, when it has one. */
  lemma JoinHeadChar(parts: seq<string>, sep: string)
    requires |parts| >= 1 && parts[0] != []
    ensures Join(parts, sep) == [parts[0][0]] + Join([parts[0][1..]] + parts[1..], sep)
  {
    var shorter := [parts[0][1..]] + parts[1..];
    assert parts[0] == [parts[0][0]] + parts[0][1..];
    if |parts| > 1 {
      assert shorter[1..] == parts[1..];
    }
  }

  function DigitChar(d: nat): char
    requires d < 10
  {
    "0123456789"[d]
  }

  predicate IsDecimal(s: string)
  {
    |s| >= 1 && forall i :: 0 <= i < |s| ==> '0' <= s[i] <= '9'
  }

  /**
   * The decimal form of a number, as a template literal renders it: digits
   * whose value is the number, with no leading zero except for 0 itself.
   */
  function NatToString(n: nat): (s: string)
    ensures IsDecimal(s)
    ensures n == DecimalValue(s)
    ensures s[0] == '0' ==> s == "0"
  {
    if n < 10 then [DigitChar(n)]
    else
      var prefix := NatToString(n / 10);
      assert (prefix + [DigitChar(n % 10)])[..|prefix|] == prefix;
      prefix + [DigitChar(n % 10)]
  }

  /** The number a string of decimal digits stands for. */
  function DecimalValue(s: string): nat
    requires IsDecimal(s)
  {
    var d := (s[|s| - 1] as int - '0' as int);
    if |s| == 1 then d else 10 * DecimalValue(s[..|s| - 1]) + d
  }

  /** Distinct numbers render differently. */
  lemma NatToStringInjective(m: nat, n: nat)
    requires NatToString(m) == NatToString(n)
    ensures m == n
  {
  }
}
