/** JavaScript string and value semantics that the modelled modules rely on.
    A JS string is modelled as a Dafny `string` of Unicode scalar values; where
    the source depends on JS's UTF-16 `length`, `Utf16Length` is used. */
module JsText {

  datatype Option<+T> = None | Some(value: T)

  /** The three kinds of value that `s[0]` and `+` produce in the initials helpers. */
  datatype JsValue = Str(s: string) | Undefined | NaN

  /** `s.length` in JS: the number of UTF-16 code units (astral characters count twice). */
  function Utf16Length(s: string): (n: nat)
    ensures |s| <= n <= 2 * |s|
  {
    if s == [] then 0 else (if s[0] as int > 0xFFFF then 2 else 1) + Utf16Length(s[1..])
  }

  predicate IsAsciiDigit(c: char) {
    '0' <= c <= '9'
  }

  predicate AllAsciiDigits(s: string) {
    forall i :: 0 <= i < |s| ==> IsAsciiDigit(s[i])
  }

  /** A string of ASCII digits has as many UTF-16 units as characters. */
  lemma {:induction false} DigitsUtf16Length(s: string)
    ensures AllAsciiDigits(s) ==> Utf16Length(s) == |s|
  {
    if s != [] && AllAsciiDigits(s) {
      assert AllAsciiDigits(s[1..]) by {
        forall i | 0 <= i < |s[1..]| ensures IsAsciiDigit(s[1..][i]) {
          assert s[1..][i] == s[i + 1];
        }
      }
      DigitsUtf16Length(s[1..]);
    }
  }

  /** The class `\s` of JS regular expressions (WhiteSpace and LineTerminator). */
  predicate IsJsWhitespace(c: char) {
    c == '\t' || c == '\n' || c == '\U{B}' || c == '\U{C}' || c == '\r' || c == ' '
    || c == '\U{A0}' || c == '\U{1680}' || ('\U{2000}' <= c <= '\U{200A}')
    || c == '\U{2028}' || c == '\U{2029}' || c == '\U{202F}' || c == '\U{205F}'
    || c == '\U{3000}' || c == '\U{FEFF}'
  }

  /** `sub` occurs in `s` starting at index `i`. */
  predicate OccursAt(s: string, sub: string, i: int) {
    0 <= i && i + |sub| <= |s| && s[i..i + |sub|] == sub
  }

  /** `s.includes(sub)`. */
  function Contains(s: string, sub: string): (r: bool)
    ensures r <==> exists i :: OccursAt(s, sub, i)
    decreases |s|
  {
    if |sub| > |s| then false
    else if s[..|sub|] == sub then assert OccursAt(s, sub, 0); true
    else
      var r := Contains(s[1..], sub);
      assert r ==> exists i :: OccursAt(s, sub, i) by {
        if r {
          var j :| OccursAt(s[1..], sub, j);
          assert s[j + 1..j + 1 + |sub|] == s[1..][j..j + |sub|];
          assert OccursAt(s, sub, j + 1);
        }
      }
      assert (exists i :: OccursAt(s, sub, i)) ==> r by {
        if exists i :: OccursAt(s, sub, i) {
          var i :| OccursAt(s, sub, i);
          assert i != 0;
          assert s[1..][i - 1..i - 1 + |sub|] == s[i..i + |sub|];
          assert OccursAt(s[1..], sub, i - 1);
        }
      }
      r
  }

  /** `s.split(sep)` for a one-character separator: never empty, "" gives [""]. */
  function Split(s: string, sep: char): (parts: seq<string>)
    ensures |parts| >= 1
    ensures forall i :: 0 <= i < |parts| ==> sep !in parts[i]
    decreases |s|
  {
    if s == [] then [""]
    else
      var rest := Split(s[1..], sep);
      if s[0] == sep then [""] + rest
      else [[s[0]] + rest[0]] + rest[1..]
  }

  /** `parts.join(sep)`, the inverse of `Split`. */
  function Join(parts: seq<string>, sep: char): string
  {
    if |parts| == 0 then ""
    else if |parts| == 1 then parts[0]
    else parts[0] + [sep] + Join(parts[1..], sep)
  }

  /** Splitting loses nothing: joining the parts with the separator gives the string back. */
  lemma {:induction false} SplitJoin(s: string, sep: char)
    ensures Join(Split(s, sep), sep) == s
  {
    if s != [] {
      var rest := Split(s[1..], sep);
      SplitJoin(s[1..], sep);
      if s[0] == sep {
        assert Split(s, sep) == [""] + rest;
        assert ([""] + rest)[1..] == rest;
      } else {
        var parts := [[s[0]] + rest[0]] + rest[1..];
        assert Split(s, sep) == parts;
        if |rest| == 1 {
          assert Join(rest, sep) == rest[0];
        } else {
          assert parts[1..] == rest[1..];
          assert Join(rest, sep) == rest[0] + [sep] + Join(rest[1..], sep);
        }
      }
    }
  }

  /** A string without the separator splits into itself. */
  lemma {:induction false} SplitNoSeparator(s: string, sep: char)
    requires sep !in s
    ensures Split(s, sep) == [s]
  {
    if s != [] {
      assert sep !in s[1..];
      SplitNoSeparator(s[1..], sep);
      assert [s[0]] + s[1..] == s;
    }
  }

  /** Splitting `w + sep + rest` where `w` has no separator yields `w` followed by the parts of `rest`. */
  lemma {:induction false} SplitAtFirst(w: string, sep: char, rest: string)
    requires sep !in w
    ensures Split(w + [sep] + rest, sep) == [w] + Split(rest, sep)
    decreases |w|
  {
    var s := w + [sep] + rest;
    if w == [] {
      assert s[0] == sep && s[1..] == rest;
    } else {
      assert s[0] == w[0] && s[1..] == w[1..] + [sep] + rest;
      SplitAtFirst(w[1..], sep, rest);
      assert [w[0]] + w[1..] == w;
    }
  }

  /** The first part of `w + tail` is `w` when `w` has no separator and `tail` is empty or starts with one. */
  lemma SplitHead(w: string, sep: char, tail: string)
    requires sep !in w && (tail == [] || tail[0] == sep)
    ensures Split(w + tail, sep)[0] == w
  {
    if tail == [] {
      assert w + tail == w;
      SplitNoSeparator(w, sep);
    } else {
      assert w + tail == w + [sep] + tail[1..];
      SplitAtFirst(w, sep, tail[1..]);
    }
  }

  /** Every character of every part comes from the split string. */
  lemma {:induction false} SplitCharsFromInput(s: string, sep: char)
    ensures forall k, j :: 0 <= k < |Split(s, sep)| && 0 <= j < |Split(s, sep)[k]| ==> Split(s, sep)[k][j] in s
    decreases |s|
  {
    if s != [] {
      var rest := Split(s[1..], sep);
      SplitCharsFromInput(s[1..], sep);
      var parts := Split(s, sep);
      forall k, j | 0 <= k < |parts| && 0 <= j < |parts[k]| ensures parts[k][j] in s {
        if s[0] == sep {
          assert parts[k] == ([""] + rest)[k];
          if k > 0 {
            assert parts[k][j] == rest[k - 1][j];
          }
        } else if k == 0 {
          assert parts[0] == [s[0]] + rest[0];
          if j > 0 {
            assert parts[0][j] == rest[0][j - 1];
          }
        } else {
          assert parts[k] == rest[k];
        }
      }
    }
  }

  /** `s[i]` in JS: a one-character string, or `undefined` past the end. */
  function CharAt(s: string, i: nat): (v: JsValue)
    ensures v.Str? <==> i < |s|
    ensures v.Str? ==> v.s == [s[i]]
  {
    if i < |s| then Str([s[i]]) else Undefined
  }

  /** The JS `+` operator on the values above: string concatenation with
      `undefined` and `NaN` converted to text; `undefined + undefined` is `NaN`. */
  function Plus(a: JsValue, b: JsValue): (v: JsValue)
    ensures v.Str? <==> a.Str? || b.Str?
  {
    match (a, b)
    case (Str(x), Str(y)) => Str(x + y)
    case (Str(x), Undefined) => Str(x + "undefined")
    case (Str(x), NaN) => Str(x + "NaN")
    case (Undefined, Str(y)) => Str("undefined" + y)
    case (NaN, Str(y)) => Str("NaN" + y)
    case (_, _) => NaN
  }

  function DigitChar(d: nat): (c: char)
    requires d < 10
    ensures IsAsciiDigit(c) && (c as int) - ('0' as int) == d
  {
    ('0' as int + d) as char
  }

  /** `n.toString()` for a non-negative integer: its decimal digits, no leading zeros. */
  function NatToDecimal(n: nat): (s: string)
    ensures |s| >= 1 && AllAsciiDigits(s)
    ensures n >= 10 ==> s[0] != '0'
  {
    if n < 10 then [DigitChar(n)]
    else
      var prefix := NatToDecimal(n / 10);
      prefix + [DigitChar(n % 10)]
  }

  /** The number a string of ASCII digits denotes. */
  function DecimalValue(s: string): nat
    requires AllAsciiDigits(s)
  {
    if s == [] then 0
    else DecimalValue(s[..|s| - 1]) * 10 + ((s[|s| - 1] as int) - ('0' as int))
  }

  /** Reading back the decimal text of `n` gives `n`. */
  lemma {:induction false} DecimalRoundTrip(n: nat)
    ensures DecimalValue(NatToDecimal(n)) == n
  {
    var s := NatToDecimal(n);
    if n >= 10 {
      DecimalRoundTrip(n / 10);
      assert s[..|s| - 1] == NatToDecimal(n / 10);
    } else {
      assert s[..|s| - 1] == [];
    }
  }

  function Pow10(k: nat): (p: nat)
    ensures p >= 1
  {
    if k == 0 then 1 else 10 * Pow10(k - 1)
  }

  /** A number with exactly `k` decimal digits prints as `k` characters. */
  lemma {:induction false} DecimalLength(n: nat, k: nat)
    requires k >= 1 && Pow10(k - 1) <= n < Pow10(k)
    ensures |NatToDecimal(n)| == k
  {
    if k > 1 {
      assert Pow10(k - 1) == 10 * Pow10(k - 2);
      assert Pow10(k - 2) <= n / 10 < Pow10(k - 1);
      DecimalLength(n / 10, k - 1);
    } else {
      assert n < 10;
    }
  }
}
