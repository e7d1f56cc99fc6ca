/** The per-line parse of the basket file: a line is split on commas, each
    field is stripped of surrounding whitespace and read as a Python `int`,
    and the first field (the transaction number) is dropped. */
module BasketRow {
  import opened Failures

  /** The ASCII characters Python's `str.strip()` and `int()` treat as whitespace. */
  predicate IsSpace(c: char) {
    c == ' ' || (9 <= c as int <= 13) || (28 <= c as int <= 31)
  }

  predicate IsDigit(c: char) {
    '0' <= c <= '9'
  }

  function DigitValue(c: char): nat
    requires IsDigit(c)
  {
    c as int - '0' as int
  }

  function DigitChar(d: nat): (c: char)
    requires d < 10
    ensures IsDigit(c) && DigitValue(c) == d
  {
    ('0' as int + d) as char
  }

  // ---------------------------------------------------------------------
  // str.split(',') and its inverse

  /** The fields of `s` between commas, as `s.split(',')` gives them. */
  function Split(s: string): (fields: seq<string>)
    ensures |fields| >= 1
    ensures forall f :: f in fields ==> ',' !in f
  {
    if s == [] then [""]
    else
      var rest := Split(s[1..]);
      if s[0] == ',' then [""] + rest
      else [[s[0]] + rest[0]] + rest[1..]
  }

  /** `','.join(fields)`. */
  function Join(fields: seq<string>): string
    requires |fields| >= 1
  {
    if |fields| == 1 then fields[0] else fields[0] + "," + Join(fields[1..])
  }

  lemma {:induction false} JoinSplit(s: string)
    ensures Join(Split(s)) == s
  {
    if s != [] {
      JoinSplit(s[1..]);
      var rest := Split(s[1..]);
      if s[0] == ',' {
        assert Split(s) == [""] + rest;
        assert Join(Split(s)) == "" + "," + Join(rest);
      } else {
        var fs := Split(s);
        assert fs == [[s[0]] + rest[0]] + rest[1..];
        if |rest| == 1 {
          assert Join(fs) == [s[0]] + rest[0];
        } else {
          assert Join(rest) == rest[0] + "," + Join(rest[1..]);
          assert fs[1..] == rest[1..];
          assert Join(fs) == [s[0]] + rest[0] + "," + Join(rest[1..]);
        }
        assert s == [s[0]] + s[1..];
      }
    }
  }

  /** A field without commas splits to itself. */
  lemma {:induction false} SplitField(f: string)
    requires ',' !in f
    ensures Split(f) == [f]
  {
    if f != [] {
      SplitField(f[1..]);
      assert f == [f[0]] + f[1..];
    }
  }

  /** Splitting `f + "," + rest` yields `f` followed by the fields of `rest`. */
  lemma {:induction false} SplitCons(f: string, rest: string)
    requires ',' !in f
    ensures Split(f + "," + rest) == [f] + Split(rest)
  {
    if f == [] {
      assert ("" + "," + rest)[1..] == rest;
    } else {
      SplitCons(f[1..], rest);
      var s := f + "," + rest;
      assert s[0] == f[0];
      assert s[1..] == f[1..] + "," + rest;
      assert f == [f[0]] + f[1..];
    }
  }

  lemma {:induction false} SplitJoin(fields: seq<string>)
    requires |fields| >= 1
    requires forall f :: f in fields ==> ',' !in f
    ensures Split(Join(fields)) == fields
  {
    if |fields| == 1 {
      SplitField(fields[0]);
    } else {
      SplitJoin(fields[1..]);
      SplitCons(fields[0], Join(fields[1..]));
      assert fields == [fields[0]] + fields[1..];
    }
  }

  // ---------------------------------------------------------------------
  // str.strip()

  function TrimLeft(s: string): (r: string)
    ensures |r| <= |s|
  {
    if |s| > 0 && IsSpace(s[0]) then TrimLeft(s[1..]) else s
  }

  /** `TrimLeft` drops a whitespace-only prefix and stops at the first other character. */
  lemma {:induction false} TrimLeftSpec(s: string)
    ensures TrimLeft(s) == s[|s| - |TrimLeft(s)|..]
    ensures forall k :: 0 <= k < |s| - |TrimLeft(s)| ==> IsSpace(s[k])
    ensures TrimLeft(s) == [] || !IsSpace(TrimLeft(s)[0])
  {
    if |s| > 0 && IsSpace(s[0]) {
      TrimLeftSpec(s[1..]);
    }
  }

  function TrimRight(s: string): (r: string)
    ensures |r| <= |s|
  {
    if |s| > 0 && IsSpace(s[|s| - 1]) then TrimRight(s[..|s| - 1]) else s
  }

  /** `TrimRight` drops a whitespace-only suffix and stops at the last other character. */
  lemma {:induction false} TrimRightSpec(s: string)
    ensures TrimRight(s) == s[..|TrimRight(s)|]
    ensures forall k :: |TrimRight(s)| <= k < |s| ==> IsSpace(s[k])
    ensures TrimRight(s) == [] || !IsSpace(TrimRight(s)[|TrimRight(s)| - 1])
  {
    if |s| > 0 && IsSpace(s[|s| - 1]) {
      TrimRightSpec(s[..|s| - 1]);
    }
  }

  /** `s.strip()`: leading and trailing whitespace removed. */
  function Strip(s: string): (r: string)
    ensures exists i :: 0 <= i <= |s| - |r| && r == s[i..][..|r|] &&
              (forall k :: 0 <= k < i ==> IsSpace(s[k])) &&
              (forall k :: i + |r| <= k < |s| ==> IsSpace(s[k]))
    ensures r == [] || (!IsSpace(r[0]) && !IsSpace(r[|r| - 1]))
  {
    var t := TrimLeft(s);
    var i := |s| - |t|;
    var r := TrimRight(t);
    TrimLeftSpec(s);
    TrimRightSpec(t);
    assert r == s[i..][..|r|];
    r
  }

  /** Stripping removes exactly the whitespace padding around a field whose
      first and last characters are not whitespace. */
  lemma {:induction false} StripPadded(pre: string, d: string, post: string)
    requires |d| > 0 && !IsSpace(d[0]) && !IsSpace(d[|d| - 1])
    requires forall c :: c in pre ==> IsSpace(c)
    requires forall c :: c in post ==> IsSpace(c)
    ensures Strip(pre + d + post) == d
  {
    assert pre + d + post == pre + (d + post);
    assert (d + post)[0] == d[0];
    TrimLeftPadded(pre, d + post);
    TrimRightPadded(d, post);
  }

  lemma {:induction false} TrimLeftPadded(pre: string, s: string)
    requires |s| > 0 && !IsSpace(s[0])
    requires forall c :: c in pre ==> IsSpace(c)
    ensures TrimLeft(pre + s) == s
  {
    if pre != [] {
      assert (pre + s)[0] == pre[0];
      assert (pre + s)[1..] == pre[1..] + s;
      TrimLeftPadded(pre[1..], s);
    }
  }

  lemma {:induction false} TrimRightPadded(s: string, post: string)
    requires |s| > 0 && !IsSpace(s[|s| - 1])
    requires forall c :: c in post ==> IsSpace(c)
    ensures TrimRight(s + post) == s
  {
    if post != [] {
      var t := s + post;
      assert t[|t| - 1] == post[|post| - 1];
      assert t[..|t| - 1] == s + post[..|post| - 1];
      TrimRightPadded(s, post[..|post| - 1]);
    } else {
      assert s + post == s;
    }
  }

  // ---------------------------------------------------------------------
  // int() on a stripped field: an optional sign, then ASCII digits with
  // single underscores allowed between digits

  predicate ValidDigits(s: string) {
    && |s| > 0
    && IsDigit(s[0]) && IsDigit(s[|s| - 1])
    && (forall i :: 0 <= i < |s| ==> IsDigit(s[i]) || s[i] == '_')
    && (forall i :: 0 <= i < |s| - 1 ==> !(s[i] == '_' && s[i + 1] == '_'))
  }

  /** The decimal value of the digits of `s`; anything else (an underscore) is skipped. */
  function DigitsValue(s: string): nat {
    if s == [] then 0
    else if IsDigit(s[|s| - 1]) then 10 * DigitsValue(s[..|s| - 1]) + DigitValue(s[|s| - 1])
    else DigitsValue(s[..|s| - 1])
  }

  /** The number of decimal digits in `s`, underscores not counted. */
  function DigitCount(s: string): (c: nat)
    ensures c <= |s|
  {
    if s == [] then 0 else DigitCount(s[..|s| - 1]) + (if IsDigit(s[|s| - 1]) then 1 else 0)
  }

  /** A leading sign adds no digit. */
  lemma {:induction false} SignNotCounted(s: string)
    requires |s| > 0 && !IsDigit(s[0])
    ensures DigitCount(s) == DigitCount(s[1..])
  {
    if |s| > 1 {
      assert s[..|s| - 1][1..] == s[1..][..|s| - 2];
      SignNotCounted(s[..|s| - 1]);
    }
  }

  /** The default bound on the digits `int()` converts from a decimal string
      (`sys.get_int_max_str_digits()`); a longer digit string raises ValueError. */
  const MaxStrDigits: nat := 4300

  /** The text after an optional leading sign. */
  function Unsigned(s: string): string {
    if |s| > 0 && (s[0] == '-' || s[0] == '+') then s[1..] else s
  }

  /** `int(s)` on a stripped field: an optional sign, then digits with single
      underscores between them, at most `MaxStrDigits` digits in all. */
  function ParseInt(s: string): (r: Option<int>)
    ensures r.Some? <==> ValidDigits(Unsigned(s)) && DigitCount(Unsigned(s)) <= MaxStrDigits
    ensures r.Some? ==> |s| > 0 && 1 <= DigitCount(s) <= MaxStrDigits
    ensures r.Some? ==> forall i :: 0 <= i < |s| ==>
              IsDigit(s[i]) || s[i] == '_' || (i == 0 && (s[i] == '-' || s[i] == '+'))
    ensures r.Some? && s[0] == '-' ==> r.value <= 0
    ensures r.Some? && s[0] != '-' ==> r.value >= 0
  {
    if |s| > 0 && (s[0] == '-' || s[0] == '+') then
      var digits := s[1..];
      if ValidDigits(digits) && DigitCount(digits) <= MaxStrDigits then
        SignNotCounted(s);
        var v: int := DigitsValue(digits);
        Some(if s[0] == '-' then -v else v)
      else None
    else if ValidDigits(s) && DigitCount(s) <= MaxStrDigits then Some(DigitsValue(s))
    else None
  }

  /** A `+` in front of unsigned text changes nothing; a `-` negates the value. */
  lemma SignedParse(d: string)
    requires |d| == 0 || (d[0] != '-' && d[0] != '+')
    ensures ParseInt("+" + d) == ParseInt(d)
    ensures ParseInt("-" + d) == if ParseInt(d).Some? then Some(-ParseInt(d).value) else None
  {
    assert ("+" + d)[1..] == d;
    assert ("-" + d)[1..] == d;
  }

  /** One more leading zero changes nothing, as long as the digits stay within the limit. */
  lemma LeadingZeroParse(d: string)
    requires ValidDigits(d) && DigitCount(d) < MaxStrDigits
    ensures ParseInt("0" + d) == ParseInt(d)
  {
    LeadingZero(d);
    var z := "0" + d;
    assert z[0] == '0' && z[|z| - 1] == d[|d| - 1];
    assert forall i :: 1 <= i < |z| ==> z[i] == d[i - 1];
  }

  /** A single underscore between two digit groups changes nothing. */
  lemma UnderscoreParse(a: string, b: string)
    requires ValidDigits(a) && ValidDigits(b)
    ensures ParseInt(a + "_" + b) == ParseInt(a + b)
  {
    Underscore(a, b);
    JoinedDigits(a, "_", b);
    JoinedDigits(a, "", b);
    assert a + "" + b == a + b;
  }

  /** Two well-formed digit groups with `sep` (nothing or one underscore) between them are well formed. */
  lemma JoinedDigits(a: string, sep: string, b: string)
    requires ValidDigits(a) && ValidDigits(b)
    requires sep == "" || sep == "_"
    ensures ValidDigits(a + sep + b)
  {
    var u := a + sep + b;
    var k := |a| + |sep|;
    assert forall i :: 0 <= i < |a| ==> u[i] == a[i];
    assert forall i :: k <= i < |u| ==> u[i] == b[i - k];
    assert forall i :: |a| <= i < k ==> u[i] == '_';
    assert u[0] == a[0] && u[|u| - 1] == b[|b| - 1];
    forall i | 0 <= i < |u| - 1 ensures !(u[i] == '_' && u[i + 1] == '_') {
      if i < |a| - 1 {
        assert u[i] == a[i] && u[i + 1] == a[i + 1];
      } else if i == |a| - 1 {
        assert u[i] == a[|a| - 1];
      } else if i >= k {
        assert u[i] == b[i - k] && u[i + 1] == b[i + 1 - k];
      } else {
        assert u[i + 1] == b[0];
      }
    }
  }

  lemma {:induction false} LeadingZero(d: string)
    ensures DigitsValue("0" + d) == DigitsValue(d)
    ensures DigitCount("0" + d) == DigitCount(d) + 1
  {
    var z := "0" + d;
    if d == [] {
      assert z[..0] == [];
    } else {
      var m := |d| - 1;
      assert z[..|z| - 1] == "0" + d[..m];
      assert z[|z| - 1] == d[m];
      LeadingZero(d[..m]);
    }
  }

  lemma {:induction false} Underscore(a: string, b: string)
    ensures DigitsValue(a + "_" + b) == DigitsValue(a + b)
    ensures DigitCount(a + "_" + b) == DigitCount(a + b)
  {
    var u, v := a + "_" + b, a + b;
    if b == [] {
      assert u[..|u| - 1] == a && v == a;
    } else {
      var m := |b| - 1;
      assert u[..|u| - 1] == a + "_" + b[..m];
      assert v[..|v| - 1] == a + b[..m];
      Underscore(a, b[..m]);
    }
  }

  /** `[int(x.strip()) for x in fields]`, or None as soon as one field is not an integer. */
  function ParseFields(fields: seq<string>): (r: Option<seq<int>>)
    ensures r.Some? <==> forall i :: 0 <= i < |fields| ==> ParseInt(Strip(fields[i])).Some?
    ensures r.Some? ==> |r.value| == |fields|
    ensures r.Some? ==> forall i :: 0 <= i < |fields| ==> r.value[i] == ParseInt(Strip(fields[i])).value
  {
    if fields == [] then Some([])
    else
      var rest := fields[1..];
      assert forall j :: 0 <= j < |rest| ==> rest[j] == fields[j + 1];
      match ParseInt(Strip(fields[0]))
      case None => None
      case Some(v) =>
        match ParseFields(rest)
        case None =>
          assert exists j :: 0 <= j < |rest| && ParseInt(Strip(rest[j])).None?;
          None
        case Some(vs) =>
          assert forall i :: 1 <= i < |fields| ==> fields[i] == rest[i - 1];
          Some([v] + vs)
  }

  /** One line of the basket file as a matrix row: every field an integer,
      the leading transaction number dropped. */
  function ParseBasketRow(line: string): (r: Result<seq<int>>)
    ensures r.Ok? ==> forall i :: 0 <= i < |Split(line)| ==> ParseInt(Strip(Split(line)[i])).Some?
    ensures (forall i :: 0 <= i < |Split(line)| ==> ParseInt(Strip(Split(line)[i])).Some?) ==> r.Ok?
    ensures r.Err? ==> r.error == NonNumericBasket
    ensures r.Ok? ==> |r.value| == |Split(line)| - 1
    ensures r.Ok? ==> forall i :: 0 <= i < |r.value| ==> r.value[i] == ParseInt(Strip(Split(line)[i + 1])).value
  {
    var fields := Split(line);
    var parsed := ParseFields(fields);
    if parsed.None? then Err(NonNumericBasket) else Ok(parsed.value[1..])
  }

  // ---------------------------------------------------------------------
  // Writing a row back as a line, and the round trip

  /** The decimal digits of `n`, most significant first. */
  function NatDigits(n: nat): (s: string)
    ensures |s| > 0 && forall i :: 0 <= i < |s| ==> IsDigit(s[i])
  {
    if n < 10 then [DigitChar(n)] else NatDigits(n / 10) + [DigitChar(n % 10)]
  }

  function Abs(x: int): nat {
    if x < 0 then -x else x
  }

  /** `int()` accepts the decimal form of `x`: it has at most `MaxStrDigits` digits. */
  predicate WithinDigitLimit(x: int) {
    |NatDigits(Abs(x))| <= MaxStrDigits
  }

  function Decimal(x: int): string {
    if x < 0 then "-" + NatDigits(-x) else NatDigits(x)
  }

  /** The line a basket file holds for transaction `id` with quantities `row`. */
  function FormatLine(id: int, row: seq<int>): string {
    Join(DecimalFields([id] + row)) + "\n"
  }

  function DecimalFields(xs: seq<int>): (fs: seq<string>)
    ensures |fs| == |xs|
    ensures forall i :: 0 <= i < |xs| ==> fs[i] == Decimal(xs[i])
  {
    if xs == [] then [] else [Decimal(xs[0])] + DecimalFields(xs[1..])
  }

  lemma {:induction false} NatDigitsValue(n: nat)
    ensures DigitsValue(NatDigits(n)) == n
  {
    if n >= 10 {
      NatDigitsValue(n / 10);
      var s := NatDigits(n);
      assert s[..|s| - 1] == NatDigits(n / 10);
    }
  }

  lemma {:induction false} AllDigitsCount(s: string)
    requires forall i :: 0 <= i < |s| ==> IsDigit(s[i])
    ensures DigitCount(s) == |s|
  {
    if s != [] {
      AllDigitsCount(s[..|s| - 1]);
    }
  }

  lemma AllDigitsValid(s: string)
    requires |s| > 0 && forall i :: 0 <= i < |s| ==> IsDigit(s[i])
    ensures ValidDigits(s)
  {
  }

  /** `int()` reads the decimal form of `x` back as `x`, unless it has too many digits. */
  lemma DecimalParses(x: int)
    ensures ParseInt(Decimal(x)) == if WithinDigitLimit(x) then Some(x) else None
  {
    var d := NatDigits(Abs(x));
    AllDigitsValid(d);
    AllDigitsCount(d);
    NatDigitsValue(Abs(x));
    if x < 0 {
      var s := Decimal(x);
      assert s[0] == '-' && s[1..] == d;
    } else {
      assert !(d[0] == '-' || d[0] == '+');
    }
  }

  /** A decimal has neither commas nor whitespace at its ends. */
  lemma DecimalShape(x: int)
    ensures ',' !in Decimal(x)
    ensures |Decimal(x)| > 0 && !IsSpace(Decimal(x)[0]) && !IsSpace(Decimal(x)[|Decimal(x)| - 1])
  {
    var d := Decimal(x);
    if x < 0 {
      assert forall i :: 1 <= i < |d| ==> d[i] == NatDigits(-x)[i - 1];
    }
    assert forall i :: 0 <= i < |d| ==> d[i] == '-' || IsDigit(d[i]);
  }

  /** Appending text to the last field of a join appends it to the join. */
  lemma {:induction false} JoinAppend(fields: seq<string>, t: string)
    requires |fields| >= 1
    ensures Join(fields) + t == Join(fields[..|fields| - 1] + [fields[|fields| - 1] + t])
  {
    if |fields| > 1 {
      JoinAppend(fields[1..], t);
      var g := fields[..|fields| - 1] + [fields[|fields| - 1] + t];
      assert g[0] == fields[0];
      assert g[1..] == fields[1..][..|fields| - 2] + [fields[|fields| - 1] + t];
    }
  }

  /** The fields `FormatLine` writes: the decimals, a newline after the last. */
  function LineFields(xs: seq<int>): (gs: seq<string>)
    requires |xs| >= 1
    ensures |gs| == |xs|
  {
    var fs := DecimalFields(xs);
    fs[..|fs| - 1] + [fs[|fs| - 1] + "\n"]
  }

  lemma SplitFormatLine(id: int, row: seq<int>)
    ensures Split(FormatLine(id, row)) == LineFields([id] + row)
  {
    var xs := [id] + row;
    var gs := LineFields(xs);
    var m := |xs| - 1;
    JoinAppend(DecimalFields(xs), "\n");
    forall f | f in gs ensures ',' !in f {
      var i :| 0 <= i < |gs| && gs[i] == f;
      DecimalShape(xs[i]);
      if i == m {
        assert f == Decimal(xs[m]) + "\n";
      } else {
        assert f == Decimal(xs[i]);
      }
    }
    SplitJoin(gs);
  }

  lemma LineFieldParses(xs: seq<int>, i: nat)
    requires i < |xs|
    ensures ParseInt(Strip(LineFields(xs)[i])) == if WithinDigitLimit(xs[i]) then Some(xs[i]) else None
  {
    var gs := LineFields(xs);
    DecimalShape(xs[i]);
    DecimalParses(xs[i]);
    if i == |xs| - 1 {
      StripPadded("", Decimal(xs[i]), "\n");
      assert "" + Decimal(xs[i]) + "\n" == gs[i];
    } else {
      StripPadded("", Decimal(xs[i]), "");
      assert "" + Decimal(xs[i]) + "" == gs[i];
    }
  }

  lemma ParseFieldsAll(fs: seq<string>, xs: seq<int>)
    requires |fs| == |xs|
    requires forall i :: 0 <= i < |fs| ==> ParseInt(Strip(fs[i])) == Some(xs[i])
    ensures ParseFields(fs) == Some(xs)
  {
    var r := ParseFields(fs);
    assert r.Some?;
    assert r.value == xs;
  }

  lemma LineFieldsParse(xs: seq<int>)
    requires |xs| >= 1
    ensures ParseFields(LineFields(xs)) == if forall i :: 0 <= i < |xs| ==> WithinDigitLimit(xs[i]) then Some(xs) else None
  {
    var gs := LineFields(xs);
    if forall i :: 0 <= i < |xs| ==> WithinDigitLimit(xs[i]) {
      forall i | 0 <= i < |gs| ensures ParseInt(Strip(gs[i])) == Some(xs[i]) {
        LineFieldParses(xs, i);
      }
      ParseFieldsAll(gs, xs);
    } else {
      var i :| 0 <= i < |xs| && !WithinDigitLimit(xs[i]);
      LineFieldParses(xs, i);
      ParseFieldsNone(gs, i);
    }
  }

  lemma ParseFieldsNone(fs: seq<string>, i: nat)
    requires i < |fs| && ParseInt(Strip(fs[i])) == None
    ensures ParseFields(fs) == None
  {
  }

  /** Reading back a written line gives back its quantities, and fails as
      non-numeric exactly when one of its numbers has too many digits for `int()`. */
  lemma FormatParseRoundTrip(id: int, row: seq<int>)
    ensures ParseBasketRow(FormatLine(id, row)) ==
              if WithinDigitLimit(id) && forall i :: 0 <= i < |row| ==> WithinDigitLimit(row[i])
              then Ok(row) else Err(NonNumericBasket)
  {
    var xs := [id] + row;
    var line := FormatLine(id, row);
    SplitFormatLine(id, row);
    LineFieldsParse(xs);
    AllFit(id, row);
    var parsed := ParseFields(Split(line));
    assert parsed == if forall i :: 0 <= i < |xs| ==> WithinDigitLimit(xs[i]) then Some(xs) else None;
    assert ParseBasketRow(line) == if parsed.None? then Err(NonNumericBasket) else Ok(parsed.value[1..]);
    assert xs[1..] == row;
  }

  lemma AllFit(id: int, row: seq<int>)
    ensures (forall i :: 0 <= i < |[id] + row| ==> WithinDigitLimit(([id] + row)[i])) <==>
            (WithinDigitLimit(id) && forall i :: 0 <= i < |row| ==> WithinDigitLimit(row[i]))
  {
    var xs := [id] + row;
    assert xs[0] == id;
    assert forall i :: 0 <= i < |row| ==> xs[i + 1] == row[i];
  }
}
