/**
 * Text helpers shared by the two RESP3 stream classes: the JavaScript string
 * operations they rely on (`split('\r\n')`, `join('\r\n')`, `split(' ')`,
 * `${n}`, `parseInt(digits, 10)`, `.length`, `Buffer.byteLength`, `<` on
 * strings), stated over Dafny strings of Unicode scalar values. A JavaScript
 * string may also hold lone surrogates, which these strings cannot.
 */
module Text {

  datatype Option<+T> = None | Some(value: T)

  const Crlf: string := "\r\n"

  // ---------------------------------------------------------------------------
  // Lines: `s.split('\r\n')` and `parts.join('\r\n')`
  // ---------------------------------------------------------------------------

  /** True when `s` contains the line terminator CR LF somewhere. */
  predicate HasCrlf(s: string)
    decreases |s|
  {
    |s| >= 2 && ((s[0] == '\r' && s[1] == '\n') || HasCrlf(s[1..]))
  }

  /**
   * `s.split('\r\n')`: cuts at every CR LF, scanning left to right. There is
   * always at least one part (the empty string splits into `[""]`).
   */
  function Split(s: string): (parts: seq<string>)
    ensures |parts| >= 1
    decreases |s|
  {
    if |s| < 2 then [s]
    else if s[0] == '\r' && s[1] == '\n' then [""] + Split(s[2..])
    else
      var rest := Split(s[1..]);
      [[s[0]] + rest[0]] + rest[1..]
  }

  /** `parts.join('\r\n')`. */
  function Join(parts: seq<string>): string
  {
    if |parts| == 0 then ""
    else if |parts| == 1 then parts[0]
    else parts[0] + Crlf + Join(parts[1..])
  }

  lemma {:induction false} JoinCons(p: string, rest: seq<string>)
    requires |rest| >= 1
    ensures Join([p] + rest) == p + Crlf + Join(rest)
  {
    assert ([p] + rest)[1..] == rest;
  }

  /** The first part of a split is a prefix of the input. */
  lemma SplitHead(s: string)
    ensures |Split(s)[0]| > 0 ==> |s| > 0 && Split(s)[0][0] == s[0]
  {
  }

  /** Prepending a character to the first part prepends it to the join. */
  lemma {:induction false} JoinPrependHead(c: char, rest: seq<string>)
    requires |rest| >= 1
    ensures Join([[c] + rest[0]] + rest[1..]) == [c] + Join(rest)
  {
    var h, t := [c] + rest[0], rest[1..];
    assert rest == [rest[0]] + t;
    if |t| == 0 {
      assert [h] + t == [h];
    } else {
      JoinCons(h, t);
      JoinCons(rest[0], t);
      assert h + Crlf + Join(t) == [c] + (rest[0] + Crlf + Join(t));
    }
  }

  /** How `Split` proceeds on an input that does not start with the terminator. */
  lemma SplitStep(s: string)
    requires |s| >= 2 && !(s[0] == '\r' && s[1] == '\n')
    ensures Split(s) == [[s[0]] + Split(s[1..])[0]] + Split(s[1..])[1..]
  {
  }

  /** Joining the parts of a split gives the input back. */
  lemma {:induction false} JoinSplit(s: string)
    ensures Join(Split(s)) == s
    decreases |s|
  {
    if |s| < 2 {
    } else if s[0] == '\r' && s[1] == '\n' {
      var rest := Split(s[2..]);
      assert Split(s) == [""] + rest;
      JoinSplit(s[2..]);
      JoinCons("", rest);
      assert s == Crlf + s[2..];
    } else {
      var rest := Split(s[1..]);
      SplitStep(s);
      JoinSplit(s[1..]);
      JoinPrependHead(s[0], rest);
      assert s == [s[0]] + s[1..];
    }
  }

  lemma HasCrlfCons(c: char, p: string)
    ensures HasCrlf([c] + p) <==> (c == '\r' && |p| > 0 && p[0] == '\n') || HasCrlf(p)
  {
    assert ([c] + p)[1..] == p;
  }

  /** No part of a split contains the terminator. */
  lemma {:induction false} SplitPartsHaveNoCrlf(s: string)
    ensures forall i :: 0 <= i < |Split(s)| ==> !HasCrlf(Split(s)[i])
    decreases |s|
  {
    if |s| < 2 {
    } else if s[0] == '\r' && s[1] == '\n' {
      SplitPartsHaveNoCrlf(s[2..]);
      assert forall i :: 1 <= i < |Split(s)| ==> Split(s)[i] == Split(s[2..])[i - 1];
    } else {
      var rest := Split(s[1..]);
      SplitPartsHaveNoCrlf(s[1..]);
      SplitHead(s[1..]);
      HasCrlfCons(s[0], rest[0]);
      assert forall i :: 1 <= i < |Split(s)| ==> Split(s)[i] == rest[i];
    }
  }

  /** A string without the terminator splits into itself alone. */
  lemma {:induction false} SplitSingle(p: string)
    requires !HasCrlf(p)
    ensures Split(p) == [p]
    decreases |p|
  {
    if |p| >= 2 {
      SplitSingle(p[1..]);
      assert [p[0]] + p[1..] == p;
    }
  }

  /** A terminator after a terminator-free prefix is the first cut. */
  lemma {:induction false} SplitPrefix(p: string, t: string)
    requires !HasCrlf(p)
    ensures Split(p + Crlf + t) == [p] + Split(t)
    decreases |p|
  {
    var s := p + Crlf + t;
    if |p| == 0 {
      assert s[2..] == t;
    } else {
      assert s[0] == p[0];
      assert !(s[0] == '\r' && s[1] == '\n') by {
        if |p| >= 2 { assert s[1] == p[1]; } else { assert s[1] == '\r'; }
      }
      assert s[1..] == p[1..] + Crlf + t;
      SplitPrefix(p[1..], t);
      assert [p[0]] + p[1..] == p;
    }
  }

  /** A terminator-free line followed by the terminator splits into the line and "". */
  lemma SplitTerminatedLine(line: string)
    requires !HasCrlf(line)
    ensures Split(line + Crlf) == [line, ""]
  {
    SplitPrefix(line, "");
    assert line + Crlf + "" == line + Crlf;
    assert Split("") == [""];
  }

  /** Splitting a join of terminator-free parts gives the parts back. */
  lemma {:induction false} SplitJoin(parts: seq<string>)
    requires |parts| >= 1
    requires forall i :: 0 <= i < |parts| ==> !HasCrlf(parts[i])
    ensures Split(Join(parts)) == parts
    decreases |parts|
  {
    if |parts| == 1 {
      SplitSingle(parts[0]);
    } else {
      SplitJoin(parts[1..]);
      SplitPrefix(parts[0], Join(parts[1..]));
      assert [parts[0]] + parts[1..] == parts;
    }
  }

  /** Appending a terminator adds one empty last part and changes nothing else. */
  lemma {:induction false} SplitAppendCrlf(s: string)
    ensures Split(s + Crlf) == Split(s) + [""]
    decreases |s|
  {
    var x := s + Crlf;
    if |s| == 0 {
      assert x[2..] == "";
    } else if |s| == 1 {
      assert x[1] == '\r';
      SplitStep(x);
      assert x[1..] == Crlf;
      assert Split(Crlf) == ["", ""] by { assert Crlf[2..] == ""; }
      assert [s[0]] + "" == s;
    } else if s[0] == '\r' && s[1] == '\n' {
      assert x[2..] == s[2..] + Crlf;
      SplitAppendCrlf(s[2..]);
    } else {
      assert x[1..] == s[1..] + Crlf;
      SplitStep(x);
      SplitStep(s);
      SplitAppendCrlf(s[1..]);
    }
  }

  /** A string without a carriage return cannot contain the terminator. */
  lemma {:induction false} NoCrNoCrlf(s: string)
    requires forall i :: 0 <= i < |s| ==> s[i] != '\r'
    ensures !HasCrlf(s)
    decreases |s|
  {
    if |s| >= 2 {
      NoCrNoCrlf(s[1..]);
    }
  }

  /** A joined string ending in an empty part ends in a terminator. */
  lemma {:induction false} JoinEndsWithCrlf(parts: seq<string>)
    requires |parts| >= 2 && parts[|parts| - 1] == ""
    ensures var s := Join(parts); |s| >= 2 && s[|s| - 2..] == Crlf
    decreases |parts|
  {
    if |parts| > 2 {
      JoinEndsWithCrlf(parts[1..]);
    }
  }

  // ---------------------------------------------------------------------------
  // Words: `s.split(' ')` and `words.join(' ')`
  // ---------------------------------------------------------------------------

  /** `s.split(' ')`. */
  function SplitWords(s: string): (words: seq<string>)
    ensures |words| >= 1
    decreases |s|
  {
    if |s| == 0 then [""]
    else if s[0] == ' ' then [""] + SplitWords(s[1..])
    else
      var rest := SplitWords(s[1..]);
      [[s[0]] + rest[0]] + rest[1..]
  }

  /** `words.join(' ')`. */
  function JoinWords(words: seq<string>): string
  {
    if |words| == 0 then ""
    else if |words| == 1 then words[0]
    else words[0] + " " + JoinWords(words[1..])
  }

  /** A word of an inline command: no space and no line-break characters. */
  predicate IsBareWord(w: string)
  {
    forall i :: 0 <= i < |w| ==> w[i] != ' ' && w[i] != '\r' && w[i] != '\n'
  }

  lemma {:induction false} SplitWordsPrefix(w: string, t: string)
    requires IsBareWord(w)
    ensures SplitWords(w + " " + t) == [w] + SplitWords(t)
    decreases |w|
  {
    var s := w + " " + t;
    if |w| == 0 {
      assert s[1..] == t;
    } else {
      assert s[0] == w[0];
      assert s[1..] == w[1..] + " " + t;
      SplitWordsPrefix(w[1..], t);
      assert [w[0]] + w[1..] == w;
    }
  }

  lemma {:induction false} SplitWordsSingle(w: string)
    requires IsBareWord(w)
    ensures SplitWords(w) == [w]
    decreases |w|
  {
    if |w| > 0 {
      SplitWordsSingle(w[1..]);
      assert [w[0]] + w[1..] == w;
    }
  }

  /** Splitting a space-join of bare words at spaces gives the words back. */
  lemma {:induction false} SplitJoinWords(words: seq<string>)
    requires |words| >= 1
    requires forall i :: 0 <= i < |words| ==> IsBareWord(words[i])
    ensures SplitWords(JoinWords(words)) == words
    decreases |words|
  {
    if |words| == 1 {
      SplitWordsSingle(words[0]);
    } else {
      SplitJoinWords(words[1..]);
      SplitWordsPrefix(words[0], JoinWords(words[1..]));
      assert [words[0]] + words[1..] == words;
    }
  }

  /** A space-join of bare words holds no carriage return. */
  lemma {:induction false} JoinWordsHasNoCr(words: seq<string>)
    requires forall i :: 0 <= i < |words| ==> IsBareWord(words[i])
    ensures forall i :: 0 <= i < |JoinWords(words)| ==> JoinWords(words)[i] != '\r'
    decreases |words|
  {
    if |words| > 1 {
      JoinWordsHasNoCr(words[1..]);
      var s := JoinWords(words);
      assert s == words[0] + " " + JoinWords(words[1..]);
      forall i | 0 <= i < |s| ensures s[i] != '\r' {
        if i < |words[0]| {
          assert s[i] == words[0][i];
        } else if i > |words[0]| {
          assert s[i] == JoinWords(words[1..])[i - |words[0]| - 1];
        }
      }
    }
  }

  // ---------------------------------------------------------------------------
  // Decimal numbers: `${n}` and `parseInt(digits, 10)`
  // ---------------------------------------------------------------------------

  predicate IsDigit(c: char) { '0' <= c <= '9' }

  /** Matches `\d+`: one or more ASCII decimal digits. */
  predicate IsDigits(s: string)
  {
    |s| > 0 && forall i :: 0 <= i < |s| ==> IsDigit(s[i])
  }

  /** `parseInt(s, 10)` for a run of decimal digits (leading zeros allowed). */
  function DigitsValue(s: string): nat
    requires forall i :: 0 <= i < |s| ==> IsDigit(s[i])
    decreases |s|
  {
    if |s| == 0 then 0
    else
      assert IsDigit(s[|s| - 1]);
      DigitsValue(s[..|s| - 1]) * 10 + (s[|s| - 1] as int - '0' as int)
  }

  function DigitChar(d: nat): char
    requires d < 10
  {
    ('0' as int + d) as char
  }

  /** `${n}` for a non-negative integer: its decimal digits, no leading zero. */
  function Decimal(n: nat): (s: string)
    decreases n
  {
    if n < 10 then [DigitChar(n)] else Decimal(n / 10) + [DigitChar(n % 10)]
  }

  /** The decimal text of a number is a run of digits that parses back to it. */
  lemma {:induction false} DecimalRoundTrip(n: nat)
    ensures IsDigits(Decimal(n))
    ensures DigitsValue(Decimal(n)) == n
    ensures Decimal(n)[0] == '0' <==> n == 0
    decreases n
  {
    if n >= 10 {
      DecimalRoundTrip(n / 10);
      var s := Decimal(n);
      assert s[..|s| - 1] == Decimal(n / 10);
      assert s[0] == Decimal(n / 10)[0];
    }
  }

  /** The longest prefix of `s` made of digits (what `\d+` consumes). */
  function LeadingDigits(s: string): (d: string)
    ensures |d| <= |s| && d == s[..|d|]
    ensures forall i :: 0 <= i < |d| ==> IsDigit(d[i])
    ensures |d| < |s| ==> !IsDigit(s[|d|])
    decreases |s|
  {
    if |s| > 0 && IsDigit(s[0]) then [s[0]] + LeadingDigits(s[1..]) else ""
  }

  /** Digits followed by a non-digit: the leading run is exactly those digits. */
  lemma {:induction false} LeadingDigitsOf(d: string, t: string)
    requires forall i :: 0 <= i < |d| ==> IsDigit(d[i])
    requires |t| == 0 || !IsDigit(t[0])
    ensures LeadingDigits(d + t) == d
    decreases |d|
  {
    if |d| > 0 {
      assert (d + t)[1..] == d[1..] + t;
      LeadingDigitsOf(d[1..], t);
      assert [d[0]] + d[1..] == d;
    }
  }

  // ---------------------------------------------------------------------------
  // String order: `a < b` on JavaScript strings
  // ---------------------------------------------------------------------------

  /**
   * Lexicographic order by character code; a proper prefix is smaller.
   * (JavaScript compares UTF-16 code units, which orders every pair of
   * characters below U+10000 the same way as their scalar values do.)
   */
  predicate LexLess(a: string, b: string)
    decreases |a|
  {
    |b| > 0 && (|a| == 0 || a[0] < b[0] || (a[0] == b[0] && LexLess(a[1..], b[1..])))
  }

  /** For a run of digits, `digits > '0'` holds exactly when it is not `"0"`. */
  lemma DigitsAboveZero(d: string)
    requires IsDigits(d)
    ensures LexLess("0", d) <==> d != "0"
  {
    if d[0] == '0' && |d| > 1 {
      assert LexLess("", d[1..]);
    }
  }

  // ---------------------------------------------------------------------------
  // Lengths: `s.length` (UTF-16 code units) and `Buffer.byteLength(s)` (UTF-8)
  // ---------------------------------------------------------------------------

  /** `s.length` in JavaScript: UTF-16 code units. */
  function Utf16Length(s: string): nat
    decreases |s|
  {
    if |s| == 0 then 0
    else (if s[0] as int >= 0x1_0000 then 2 else 1) + Utf16Length(s[1..])
  }

  /** Number of UTF-8 bytes that encode one scalar value. */
  function Utf8Width(c: char): nat
  {
    if c as int < 0x80 then 1
    else if c as int < 0x800 then 2
    else if c as int < 0x1_0000 then 3
    else 4
  }

  /** `Buffer.byteLength(s)`: the length of the UTF-8 encoding of `s`. */
  function Utf8Length(s: string): nat
    decreases |s|
  {
    if |s| == 0 then 0 else Utf8Width(s[0]) + Utf8Length(s[1..])
  }

  predicate IsAscii(s: string)
  {
    forall i :: 0 <= i < |s| ==> s[i] as int < 0x80
  }

  /**
   * The byte length is never below the JavaScript length, and the two agree
   * exactly on ASCII text.
   */
  lemma {:induction false} ByteLengthVersusLength(s: string)
    ensures Utf8Length(s) >= Utf16Length(s)
    ensures Utf8Length(s) == Utf16Length(s) <==> IsAscii(s)
    decreases |s|
  {
    if |s| > 0 {
      ByteLengthVersusLength(s[1..]);
      if IsAscii(s) {
        assert IsAscii(s[1..]) by {
          forall i | 0 <= i < |s| - 1 ensures s[1..][i] as int < 0x80 {
            assert s[1..][i] == s[i + 1];
          }
        }
      } else if s[0] as int < 0x80 {
        assert !IsAscii(s[1..]) by {
          var i :| 0 <= i < |s| && s[i] as int >= 0x80;
          assert s[1..][i - 1] == s[i];
        }
      }
    }
  }
}
