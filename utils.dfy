/** configen/utils.py: identifier normalisation and the integer-width
    calculation behind the generated integer typedefs. */
module Utils {
  import opened Exceptions
  import opened Text

  /** `_STANDARD_INT_LENGTHS`: the integer widths the generated code uses. */
  const StandardIntLengths: seq<nat> := [8, 16, 32, 64]

  // ---------------------------------------------------------------------
  // to_camel_case
  // ---------------------------------------------------------------------

  /** `w[0].upper() + w[1:]` for a non-empty word. */
  function Capitalize(w: string): (c: string)
    requires w != []
    ensures |c| == |w| && c[0] == ToUpper(w[0]) && c[1..] == w[1..]
  {
    [ToUpper(w[0])] + w[1..]
  }

  /** The comprehension `[w[0].upper() + w[1:] for w in ws]` over non-empty
      words. */
  function CapitalizeWords(ws: seq<string>): (cs: seq<string>)
    requires "" !in ws
    ensures |cs| == |ws| && forall i :: 0 <= i < |ws| ==> cs[i] == Capitalize(ws[i])
  {
    if ws == [] then [] else [Capitalize(ws[0])] + CapitalizeWords(ws[1..])
  }

  /** The words `to_camel_case` capitalises: the `'_'`-separated fields of the
      stripped name. */
  function Words(name: string): (ws: seq<string>)
    ensures ws != [] && forall i :: 0 <= i < |ws| ==> '_' !in ws[i]
  {
    Split(Strip(name), '_')
  }

  /** Joining the words with `'_'` gives the stripped name back. */
  lemma WordsJoin(name: string)
    ensures Join(Words(name), "_") == Strip(name)
  {
    JoinSplit(Strip(name), '_');
  }

  /** `to_camel_case(name)`: an empty name is returned as it is; otherwise the
      fields of the stripped name are capitalised and concatenated, and an
      empty field makes `w[0]` raise an IndexError. */
  function ToCamelCase(name: string): (r: Result<string>)
    ensures name == "" ==> r == Ok("")
    ensures r.Err? <==> name != "" && "" in Words(name)
    ensures r.Err? ==> r.error == IndexError
    ensures r.Ok? ==> '_' !in r.value
  {
    if name == "" then Ok("")
    else
      var ws := Words(name);
      if "" in ws then Err(IndexError)
      else
        var caps := CapitalizeWords(ws);
        JoinWithout(caps, "", '_');
        Ok(Join(caps, ""))
  }

  /** A non-empty name fails exactly when it is blank after stripping, or its
      stripped form starts or ends with `'_'` or holds `'__'`. */
  lemma ToCamelCaseFails(name: string)
    requires name != ""
    ensures ToCamelCase(name).Err?
            <==> var s := Strip(name);
                 s == "" || s[0] == '_' || s[|s| - 1] == '_' || DoubledSeparator(s, '_')
  {
    EmptyField(Strip(name), '_');
  }

  /** A name already in camel case (no `'_'`, a capital or non-letter first
      character, no surrounding white space) is returned unchanged. */
  lemma ToCamelCaseFixpoint(name: string)
    requires name != "" && '_' !in name
    requires !IsSpace(name[0]) && !IsSpace(name[|name| - 1])
    requires ToUpper(name[0]) == name[0]
    ensures ToCamelCase(name) == Ok(name)
  {
    StripNoOp(name);
    SplitWord(name, '_');
    assert Words(name) == [name];
  }

  /** The stripped name starts with the first character of the first word
      and ends with the last character of the last word. */
  lemma StrippedEnds(name: string)
    requires "" !in Words(name)
    ensures var s := Strip(name);
            var ws := Words(name);
            var last := ws[|ws| - 1];
            s != [] && s[0] == ws[0][0] && s[|s| - 1] == last[|last| - 1]
  {
    WordsJoin(name);
    JoinFirst(Words(name), "_");
    JoinLast(Words(name), "_");
  }

  /** Capitalising non-empty words whose outer characters are not white
      space and concatenating them gives a string that starts with a
      character `upper()` leaves alone and has no white space at either end. */
  lemma CapitalizedJoinEnds(ws: seq<string>)
    requires ws != [] && "" !in ws
    requires !IsSpace(ws[0][0]) && !IsSpace(ws[|ws| - 1][|ws[|ws| - 1]| - 1])
    ensures var r := Join(CapitalizeWords(ws), "");
            r != [] && ToUpper(r[0]) == r[0] && !IsSpace(r[0]) && !IsSpace(r[|r| - 1])
  {
    var caps := CapitalizeWords(ws);
    var last := ws[|ws| - 1];
    JoinFirst(caps, "");
    JoinLast(caps, "");
    ToUpperIdempotent(ws[0][0]);
    assert caps[|caps| - 1] == Capitalize(last);
  }

  /** A camel-cased name starts with a character `upper()` leaves alone and
      neither starts nor ends with white space. */
  lemma CamelCaseEnds(name: string)
    requires name != "" && ToCamelCase(name).Ok?
    ensures var r := ToCamelCase(name).value;
            r != [] && ToUpper(r[0]) == r[0] && !IsSpace(r[0]) && !IsSpace(r[|r| - 1])
  {
    StrippedEnds(name);
    CapitalizedJoinEnds(Words(name));
  }

  /** `to_camel_case` changes nothing in a name it has already produced. */
  lemma ToCamelCaseIdempotent(name: string)
    requires ToCamelCase(name).Ok?
    ensures ToCamelCase(ToCamelCase(name).value) == ToCamelCase(name)
  {
    if name != "" {
      CamelCaseEnds(name);
      ToCamelCaseFixpoint(ToCamelCase(name).value);
    }
  }

  /** A name made of non-empty words joined by `'_'`, with no white space
      around it, becomes its capitalised words run together. */
  lemma ToCamelCaseOfWords(ws: seq<string>)
    requires ws != [] && "" !in ws
    requires forall i :: 0 <= i < |ws| ==> '_' !in ws[i]
    requires !IsSpace(ws[0][0]) && !IsSpace(ws[|ws| - 1][|ws[|ws| - 1]| - 1])
    ensures ToCamelCase(Join(ws, "_")) == Ok(Join(CapitalizeWords(ws), ""))
  {
    var name := Join(ws, "_");
    JoinFirst(ws, "_");
    JoinLast(ws, "_");
    StripNoOp(name);
    SplitJoin(ws, '_');
    assert Words(name) == ws;
  }

  /** The capitalised words of the source's camel-case test, run together. */
  lemma CapitalizedExamples()
    ensures Join(CapitalizeWords(["t"]), "") == "T"
    ensures Join(CapitalizeWords(["test"]), "") == "Test"
    ensures Join(CapitalizeWords(["test", "var"]), "") == "TestVar"
    ensures Join(CapitalizeWords(["Test", "Var"]), "") == "TestVar"
  {
    assert Capitalize("t") == "T" by { assert ToUpper('t') == 'T'; }
    assert Capitalize("test") == "Test" by { assert ToUpper('t') == 'T'; }
    assert Capitalize("var") == "Var" by { assert ToUpper('v') == 'V'; }
    assert Capitalize("Test") == "Test" && Capitalize("Var") == "Var";
    assert CapitalizeWords(["t"]) == ["T"];
    assert CapitalizeWords(["test"]) == ["Test"];
    assert CapitalizeWords(["test", "var"]) == ["Test", "Var"];
    assert CapitalizeWords(["Test", "Var"]) == ["Test", "Var"];
  }

  /** The one-word cases of the source's camel-case test. */
  lemma ToCamelCaseWordExamples()
    ensures ToCamelCase("") == Ok("")
    ensures ToCamelCase("t") == Ok("T")
    ensures ToCamelCase("test") == Ok("Test")
  {
    CapitalizedExamples();
    ToCamelCaseOfWords(["t"]);
    ToCamelCaseOfWords(["test"]);
  }

  /** The source's camel-case test on a lower-case name with an underscore. */
  lemma ToCamelCaseLowerExample()
    ensures ToCamelCase("test_var") == Ok("TestVar")
  {
    CapitalizedExamples();
    ToCamelCaseOfWords(["test", "var"]);
    assert Join(["test", "var"], "_") == "test_var";
  }

  /** The source's camel-case test on capitalised names, with and without an
      underscore. */
  lemma ToCamelCaseCapitalExamples()
    ensures ToCamelCase("Test_Var") == Ok("TestVar")
    ensures ToCamelCase("TestVar") == Ok("TestVar")
  {
    CapitalizedExamples();
    ToCamelCaseOfWords(["Test", "Var"]);
    assert Join(["Test", "Var"], "_") == "Test_Var";
    ToCamelCaseFixpoint("TestVar");
  }

  // ---------------------------------------------------------------------
  // calculate_int_bit_length_to_hold
  // ---------------------------------------------------------------------

  function Pow2(k: nat): (p: nat)
    ensures p >= 1
  {
    if k == 0 then 1 else 2 * Pow2(k - 1)
  }

  lemma {:induction false} Pow2Monotone(j: nat, k: nat)
    requires j <= k
    ensures Pow2(j) <= Pow2(k)
  {
    if j < k {
      Pow2Monotone(j, k - 1);
    }
  }

  /** `ceil(log2(n))` read as an exact integer: the least k with 2^k >= n. */
  function CeilLog2(n: nat): (k: nat)
    requires n >= 1
    ensures n <= Pow2(k)
    ensures k == 0 || Pow2(k - 1) < n
    decreases n
  {
    if n == 1 then 0 else 1 + CeilLog2((n + 1) / 2)
  }

  /** No smaller exponent reaches n. */
  lemma CeilLog2Least(n: nat, k: nat)
    requires n >= 1 && n <= Pow2(k)
    ensures CeilLog2(n) <= k
  {
    if CeilLog2(n) > k {
      Pow2Monotone(k, CeilLog2(n) - 1);
    }
  }

  /** The two defining facts pin the exponent down. */
  lemma CeilLog2Exact(n: nat, k: nat)
    requires n >= 1 && n <= Pow2(k) && (k == 0 || Pow2(k - 1) < n)
    ensures CeilLog2(n) == k
  {
    CeilLog2Least(n, k);
    if CeilLog2(n) < k {
      Pow2Monotone(CeilLog2(n), k - 1);
    }
  }

  lemma CeilLog2Monotone(m: nat, n: nat)
    requires 1 <= m <= n
    ensures CeilLog2(m) <= CeilLog2(n)
  {
    CeilLog2Least(m, CeilLog2(n));
  }

  function Abs(v: int): nat {
    if v < 0 then -v else v
  }

  /** The `required_length` the source computes for a nonzero value: the
      bits of its magnitude, plus one sign bit for a negative value. */
  function RequiredLength(v: int): (n: nat)
    requires v != 0
    ensures v > 0 ==> v <= Pow2(n) && (n == 0 || Pow2(n - 1) < v)
    ensures v < 0 ==> n >= 1 && -v <= Pow2(n - 1) && (n == 1 || Pow2(n - 2) < -v)
  {
    CeilLog2(Abs(v)) + (if v < 0 then 1 else 0)
  }

  /** Index of the first entry of `table` that is at least `r`. */
  function FirstAtLeast(table: seq<nat>, r: nat): (i: nat)
    ensures i <= |table|
    ensures forall j :: 0 <= j < i ==> table[j] < r
    ensures i < |table| ==> r <= table[i]
  {
    if table == [] then 0 else if r <= table[0] then 0 else 1 + FirstAtLeast(table[1..], r)
  }

  /** What `calculate_int_bit_length_to_hold(v)` returns or raises: 0 for 0;
      otherwise the least standard width that is at least the required
      length, and the NameError of the fall-through return when none is. */
  function BitLengthToHold(v: int): (r: Result<nat>)
    ensures v == 0 ==> r == Ok(0)
    ensures v != 0 ==> (r.Ok? <==> RequiredLength(v) <= 64)
    ensures v != 0 && r.Ok? ==> r.value in StandardIntLengths && RequiredLength(v) <= r.value
    ensures v != 0 && r.Ok? ==>
              forall w :: w in StandardIntLengths && RequiredLength(v) <= w ==> r.value <= w
    ensures r.Err? ==> r.error == NameError("_STANDARD_LENGTHS")
  {
    if v == 0 then Ok(0)
    else
      var i := FirstAtLeast(StandardIntLengths, RequiredLength(v));
      if i < |StandardIntLengths| then Ok(StandardIntLengths[i])
      else
        assert StandardIntLengths[3] < RequiredLength(v);
        Err(NameError("_STANDARD_LENGTHS"))
  }

  /** The loop of `calculate_int_bit_length_to_hold`: raise the length by one
      for a negative value, then return the first standard width that fits. */
  method CalculateIntBitLengthToHold(value: int) returns (r: Result<nat>)
    ensures r == BitLengthToHold(value)
  {
    if value == 0 {
      return Ok(0);
    }
    var requiredLength := CeilLog2(Abs(value));
    if value < 0 {
      requiredLength := requiredLength + 1;
    }
    for i := 0 to |StandardIntLengths|
      invariant forall j :: 0 <= j < i ==> StandardIntLengths[j] < requiredLength
    {
      if requiredLength <= StandardIntLengths[i] {
        return Ok(StandardIntLengths[i]);
      }
    }
    return Err(NameError("_STANDARD_LENGTHS"));
  }

  /** For a fixed sign the width never shrinks as the magnitude grows, and a
      value that overflows the table makes every larger one overflow too. */
  lemma BitLengthMonotone(u: int, v: int)
    requires 0 < u <= v || v <= u < 0
    ensures BitLengthToHold(v).Ok? ==>
              BitLengthToHold(u).Ok? && BitLengthToHold(u).value <= BitLengthToHold(v).value
  {
    CeilLog2Monotone(Abs(u), Abs(v));
  }

  /** What a returned width guarantees: the magnitude is at most 2^w, and for
      a negative value at most 2^(w-1). */
  lemma BitLengthBound(v: int)
    requires v != 0 && BitLengthToHold(v).Ok?
    ensures v > 0 ==> v <= Pow2(BitLengthToHold(v).value)
    ensures v < 0 ==> -v <= Pow2(BitLengthToHold(v).value - 1)
  {
    var w := BitLengthToHold(v).value;
    Pow2Monotone(CeilLog2(Abs(v)), if v > 0 then w else w - 1);
  }

  /** The edge results the source's todo note admits: a positive power of two
      2^k gets k bits, one fewer than an unsigned integer needs to hold it. */
  lemma BitLengthPowerOfTwoEdge()
    ensures BitLengthToHold(128) == Ok(8) && BitLengthToHold(256) == Ok(8)
    ensures 256 > Pow2(8) - 1
  {
    assert Pow2(7) == 128 && Pow2(8) == 256;
    CeilLog2Exact(128, 7);
    CeilLog2Exact(256, 8);
  }

  /** One past a power of two moves to the next width. */
  lemma BitLengthPastPowerOfTwo()
    ensures BitLengthToHold(257) == Ok(16)
  {
    assert Pow2(8) == 256 && Pow2(9) == 512;
    CeilLog2Exact(257, 9);
  }

  /** A negative value needs one more bit than its magnitude: -128 still
      fits in 8 bits, -129 does not. */
  lemma BitLengthNegativeEdge()
    ensures BitLengthToHold(-128) == Ok(8) && BitLengthToHold(-129) == Ok(16)
  {
    assert Pow2(7) == 128 && Pow2(8) == 256;
    CeilLog2Exact(128, 7);
    CeilLog2Exact(129, 8);
    assert RequiredLength(-128) == 8 && RequiredLength(-129) == 9;
  }
}
