/** The Python string built-ins the generator relies on: `str.strip()`,
    `str.split(sep)`, `sep.join(words)`, `str.upper()` on one character and
    `str()` of an integer, each with the property that pins it down. */
module Text {

  /** Python's `str.isspace()` for one code point: exactly the characters a
      bare `str.strip()` removes. */
  predicate IsSpace(c: char) {
    var n := c as int;
    (9 <= n <= 13) || (28 <= n <= 32) || n == 0x85 || n == 0xA0 || n == 0x1680
    || (0x2000 <= n <= 0x200A) || n == 0x2028 || n == 0x2029 || n == 0x202F
    || n == 0x205F || n == 0x3000
  }

  /** `c.upper()` restricted to ASCII: lower-case letters map to capitals,
      every other character is left alone. */
  function ToUpper(c: char): (u: char)
    ensures 'a' <= c <= 'z' ==> 'A' <= u <= 'Z' && u as int == c as int - 32
    ensures !('a' <= c <= 'z') ==> u == c
    ensures IsSpace(u) == IsSpace(c) && (u == '_') == (c == '_')
  {
    if 'a' <= c <= 'z' then (c as int - 32) as char else c
  }

  lemma ToUpperIdempotent(c: char)
    ensures ToUpper(ToUpper(c)) == ToUpper(c)
  {
  }

  /** Where `s.strip()` starts: the number of leading white space characters. */
  function LeadingSpace(s: string): (n: nat)
    ensures n <= |s|
    ensures forall k :: 0 <= k < n ==> IsSpace(s[k])
    ensures n < |s| ==> !IsSpace(s[n])
  {
    if s != [] && IsSpace(s[0]) then 1 + LeadingSpace(s[1..]) else 0
  }

  /** Where the trailing white space of `s` begins. */
  function TrailingSpace(s: string): (n: nat)
    ensures n <= |s|
    ensures forall k :: n <= k < |s| ==> IsSpace(s[k])
    ensures n > 0 ==> !IsSpace(s[n - 1])
  {
    if s != [] && IsSpace(s[|s| - 1]) then TrailingSpace(s[..|s| - 1]) else |s|
  }

  /** `s.strip()`: the longest slice of `s` that neither starts nor ends with
      white space, everything cut off being white space. */
  function Strip(s: string): (r: string)
    ensures LeadingSpace(s) + |r| <= |s| && r == s[LeadingSpace(s)..LeadingSpace(s) + |r|]
    ensures forall k :: LeadingSpace(s) + |r| <= k < |s| ==> IsSpace(s[k])
    ensures r == [] || (!IsSpace(r[0]) && !IsSpace(r[|r| - 1]))
  {
    var start := LeadingSpace(s);
    var end := TrailingSpace(s);
    if end <= start then [] else s[start..end]
  }

  /** A string that neither starts nor ends with white space is its own strip. */
  lemma StripNoOp(s: string)
    requires s == [] || (!IsSpace(s[0]) && !IsSpace(s[|s| - 1]))
    ensures Strip(s) == s
  {
  }

  /** `sep.join(ws)`. */
  function Join(ws: seq<string>, sep: string): string
  {
    if |ws| == 0 then "" else if |ws| == 1 then ws[0] else ws[0] + sep + Join(ws[1..], sep)
  }

  /** Joining with a separator absent from every word never produces that
      separator. */
  lemma {:induction false} JoinWithout(ws: seq<string>, sep: string, c: char)
    requires c !in sep
    requires forall i :: 0 <= i < |ws| ==> c !in ws[i]
    ensures c !in Join(ws, sep)
  {
    if |ws| > 1 {
      JoinWithout(ws[1..], sep, c);
    }
  }

  /** Joining appends one separator and the new word at the end. */
  lemma {:induction false} JoinSnoc(ws: seq<string>, w: string, sep: string)
    requires ws != []
    ensures Join(ws + [w], sep) == Join(ws, sep) + sep + w
  {
    if |ws| > 1 {
      assert (ws + [w])[1..] == ws[1..] + [w];
      JoinSnoc(ws[1..], w, sep);
    }
  }

  /** A join whose first word is non-empty starts with that word's first
      character. */
  lemma JoinFirst(ws: seq<string>, sep: string)
    requires ws != [] && ws[0] != []
    ensures Join(ws, sep) != [] && Join(ws, sep)[0] == ws[0][0]
  {
  }

  /** A join whose last word is non-empty ends with that word's last
      character. */
  lemma {:induction false} JoinLast(ws: seq<string>, sep: string)
    requires ws != [] && ws[|ws| - 1] != []
    ensures Join(ws, sep) != [] && Join(ws, sep)[|Join(ws, sep)| - 1] == ws[|ws| - 1][|ws[|ws| - 1]| - 1]
  {
    if |ws| > 1 {
      JoinLast(ws[1..], sep);
    }
  }

  /** `s.split(sep)` for a one-character separator: the maximal runs between
      separators, empty runs included, so that joining gives `s` back. */
  function Split(s: string, sep: char): (r: seq<string>)
    ensures |r| >= 1
    ensures forall i :: 0 <= i < |r| ==> sep !in r[i]
  {
    if s == [] then [""]
    else
      var rest := Split(s[1..], sep);
      if s[0] == sep then [""] + rest
      else
        var r := [[s[0]] + rest[0]] + rest[1..];
        assert r[1..] == rest[1..];
        r
  }

  /** Joining the fields of `s.split(sep)` with the separator gives `s` back. */
  lemma {:induction false} JoinSplit(s: string, sep: char)
    ensures Join(Split(s, sep), [sep]) == s
  {
    if s != [] {
      var rest := Split(s[1..], sep);
      JoinSplit(s[1..], sep);
      var r := Split(s, sep);
      if s[0] == sep {
        assert r == [""] + rest && r[1..] == rest;
        assert Join(r, [sep]) == "" + [sep] + Join(rest, [sep]);
      } else if |rest| == 1 {
        assert r == [[s[0]] + rest[0]];
      } else {
        assert r[1..] == rest[1..];
        assert Join(rest, [sep]) == rest[0] + [sep] + Join(rest[1..], [sep]);
        assert Join(r, [sep]) == [s[0]] + rest[0] + [sep] + Join(rest[1..], [sep]);
      }
      assert [s[0]] + s[1..] == s;
    }
  }

  /** Splitting a word free of the separator gives that word alone. */
  lemma {:induction false} SplitWord(w: string, sep: char)
    requires sep !in w
    ensures Split(w, sep) == [w]
  {
    if w != [] {
      SplitWord(w[1..], sep);
      assert [w[0]] + w[1..] == w;
    }
  }

  /** Splitting a word, a separator and a tail gives the word, then the
      fields of the tail. */
  lemma {:induction false} SplitField(w: string, t: string, sep: char)
    requires sep !in w
    ensures Split(w + [sep] + t, sep) == [w] + Split(t, sep)
  {
    if w == [] {
      assert w + [sep] + t == [sep] + t;
      assert ([sep] + t)[1..] == t;
    } else {
      assert (w + [sep] + t)[1..] == w[1..] + [sep] + t;
      SplitField(w[1..], t, sep);
      assert [w[0]] + w[1..] == w;
    }
  }

  /** Split undoes Join for words free of the separator. */
  lemma {:induction false} SplitJoin(ws: seq<string>, sep: char)
    requires ws != []
    requires forall i :: 0 <= i < |ws| ==> sep !in ws[i]
    ensures Split(Join(ws, [sep]), sep) == ws
  {
    if |ws| == 1 {
      SplitWord(ws[0], sep);
    } else {
      SplitJoin(ws[1..], sep);
      SplitField(ws[0], Join(ws[1..], [sep]), sep);
      assert [ws[0]] + ws[1..] == ws;
    }
  }

  /** Two separators side by side somewhere in `s`. */
  predicate DoubledSeparator(s: string, sep: char) {
    exists i :: 0 <= i < |s| - 1 && s[i] == sep && s[i + 1] == sep
  }

  /** A doubled separator in `s` sits at its front or in its tail. */
  lemma DoubledSeparatorShift(s: string, sep: char)
    requires s != []
    ensures DoubledSeparator(s, sep)
            <==> (|s| > 1 && s[0] == sep && s[1] == sep) || DoubledSeparator(s[1..], sep)
  {
    var t := s[1..];
    if DoubledSeparator(t, sep) {
      var i :| 0 <= i < |t| - 1 && t[i] == sep && t[i + 1] == sep;
      assert s[i + 1] == sep && s[i + 2] == sep;
    }
    if DoubledSeparator(s, sep) {
      var i :| 0 <= i < |s| - 1 && s[i] == sep && s[i + 1] == sep;
      if i > 0 {
        assert t[i - 1] == sep && t[i] == sep;
      }
    }
  }

  /** The fields after the first one include an empty field exactly when `s`
      ends with the separator or holds two in a row. */
  lemma {:induction false} EmptyLaterField(s: string, sep: char)
    ensures "" in Split(s, sep)[1..]
            <==> (s != [] && s[|s| - 1] == sep) || DoubledSeparator(s, sep)
  {
    if s != [] {
      var t := s[1..];
      var rest := Split(t, sep);
      EmptyLaterField(t, sep);
      DoubledSeparatorShift(s, sep);
      if s[0] == sep {
        assert Split(s, sep)[1..] == rest;
        assert rest == [rest[0]] + rest[1..];
      } else {
        assert Split(s, sep)[1..] == rest[1..];
      }
    }
  }

  /** `s.split(sep)` yields an empty field exactly when `s` is empty, starts
      or ends with the separator, or holds two separators in a row. */
  lemma EmptyField(s: string, sep: char)
    ensures "" in Split(s, sep)
            <==> s == [] || s[0] == sep || s[|s| - 1] == sep || DoubledSeparator(s, sep)
  {
    var r := Split(s, sep);
    assert r == [r[0]] + r[1..];
    assert r[0] == "" <==> s == [] || s[0] == sep;
    EmptyLaterField(s, sep);
  }

  /** One decimal digit. */
  function DigitChar(d: nat): (c: char)
    requires d < 10
    ensures '0' <= c <= '9' && c as int - '0' as int == d
  {
    ('0' as int + d) as char
  }

  /** `str(n)` for a natural number: its decimal digits, most significant
      first, with no leading zero. */
  function NatToDecimal(n: nat): (r: string)
    ensures |r| >= 1 && forall k :: 0 <= k < |r| ==> '0' <= r[k] <= '9'
    ensures |r| > 1 ==> r[0] != '0'
    decreases n
  {
    if n < 10 then [DigitChar(n)] else NatToDecimal(n / 10) + [DigitChar(n % 10)]
  }

  /** `str(i)` for an integer: a minus sign for negatives, then the digits. */
  function IntToDecimal(i: int): (r: string)
    ensures |r| >= 1 && (i < 0 <==> r[0] == '-')
  {
    if i < 0 then "-" + NatToDecimal(-i) else NatToDecimal(i)
  }

  /** The number a string of decimal digits denotes. */
  function DigitsValue(s: string): nat
    requires forall k :: 0 <= k < |s| ==> '0' <= s[k] <= '9'
  {
    if s == [] then 0 else DigitsValue(s[..|s| - 1]) * 10 + (s[|s| - 1] as int - '0' as int)
  }

  /** The integer an optionally signed decimal string denotes. */
  function DecimalValue(s: string): int
    requires s != []
    requires s[0] == '-' ==> forall k :: 1 <= k < |s| ==> '0' <= s[k] <= '9'
    requires s[0] != '-' ==> forall k :: 0 <= k < |s| ==> '0' <= s[k] <= '9'
  {
    if s[0] == '-' then 0 - DigitsValue(s[1..]) as int else DigitsValue(s)
  }

  /** Reading the digits back gives the number that was rendered. */
  lemma {:induction false} NatToDecimalValue(n: nat)
    ensures DigitsValue(NatToDecimal(n)) == n
    decreases n
  {
    if n >= 10 {
      NatToDecimalValue(n / 10);
      var s := NatToDecimal(n);
      assert s[..|s| - 1] == NatToDecimal(n / 10);
    }
  }

  /** `str()` of an integer is read back as the same integer. */
  lemma IntToDecimalValue(i: int)
    ensures DecimalValue(IntToDecimal(i)) == i
  {
    if i < 0 {
      NatToDecimalValue(-i);
      assert IntToDecimal(i)[1..] == NatToDecimal(-i);
    } else {
      NatToDecimalValue(i);
    }
  }
}
