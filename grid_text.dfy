/**
 * `toString` of lib/Grid.ts: the rows as a bracketed, comma-separated
 * list of bracketed, comma-separated decimal numbers, e.g. `[[0,1],[2,3]]`.
 * The string is the key under which grids are interned, so the point of
 * this module is that it tells grids apart.
 */
module GridText {
  import opened Colors
  import opened GridValues

  function DigitChar(d: nat): (c: char)
    requires d < 10
    ensures '0' <= c <= '9'
  {
    "0123456789"[d]
  }

  function DigitValue(c: char): nat
  {
    if '0' <= c <= '9' then (c - '0') as nat else 0
  }

  /** The decimal digits of n, most significant first, as `Number.prototype.toString` writes them. */
  function Decimal(n: nat): (s: string)
    ensures |s| > 0 && forall i :: 0 <= i < |s| ==> '0' <= s[i] <= '9'
  {
    if n < 10 then [DigitChar(n)] else Decimal(n / 10) + [DigitChar(n % 10)]
  }

  /** The number a string of digits stands for. */
  function DecimalValue(s: string): nat
  {
    if s == [] then 0 else DecimalValue(s[..|s| - 1]) * 10 + DigitValue(s[|s| - 1])
  }

  lemma DivMod10(n: nat)
    ensures (n / 10) * 10 + n % 10 == n
  {
  }

  /** Reading back the digits gives the number. */
  lemma {:induction false} DecimalRoundTrip(n: nat)
    ensures DecimalValue(Decimal(n)) == n
  {
    var s := Decimal(n);
    if n < 10 {
      assert s[..0] == [];
    } else {
      DecimalRoundTrip(n / 10);
      assert s[..|s| - 1] == Decimal(n / 10);
      DivMod10(n);
    }
  }

  /**
   * A cell as `x?.toString()` joined into a list writes it: `undefined`
   * joins as the empty string, a negative number gets a minus sign.
   */
  function CellText(c: Color): (s: string)
    ensures s == [] <==> c == Undefined
    ensures forall i :: 0 <= i < |s| ==> s[i] == '-' || '0' <= s[i] <= '9'
  {
    if c == Undefined then "" else if c < 0 then "-" + Decimal(-c) else Decimal(c)
  }

  /** The cell a written cell stands for. */
  function CellValue(s: string): Color
  {
    if s == [] then Undefined else if s[0] == '-' then 0 - DecimalValue(s[1..]) as int else DecimalValue(s)
  }

  /** A minus sign followed by digits reads back as the negated number. */
  lemma NegativeValue(d: string)
    requires |d| > 0 && '0' <= d[0] <= '9'
    ensures CellValue(['-'] + d) == 0 - DecimalValue(d)
  {
    assert (['-'] + d)[1..] == d;
  }

  /** Digits alone read back as the number. */
  lemma DigitsValue(d: string)
    requires |d| > 0 && '0' <= d[0] <= '9'
    ensures CellValue(d) == DecimalValue(d)
  {
  }

  /** A negative cell other than `undefined` is written as a minus sign and its magnitude. */
  lemma NegativeText(c: Color)
    requires c < 0 && c != Undefined
    ensures CellText(c) == ['-'] + Decimal(-c)
  {
  }

  /** Reading back a written cell gives the cell. */
  lemma CellRoundTrip(c: Color)
    ensures CellValue(CellText(c)) == c
  {
    if c == Undefined {
      assert CellText(c) == [];
    } else if c < 0 {
      NegativeText(c);
      NegativeValue(Decimal(-c));
      DecimalRoundTrip(-c);
    } else {
      assert CellText(c) == Decimal(c);
      DigitsValue(Decimal(c));
      DecimalRoundTrip(c);
    }
  }

  /** `Array.prototype.join(',')`. */
  function Join(parts: seq<string>): (s: string)
  {
    if |parts| == 0 then "" else if |parts| == 1 then parts[0] else parts[0] + "," + Join(parts[1..])
  }

  function RowText(row: seq<Color>): (s: string)
  {
    "[" + Join(CellTexts(row)) + "]"
  }

  /** `toString`: the rows written one after the other inside brackets. */
  function Text(r: Raster): (s: string)
  {
    "[" + Join(RowTexts(r)) + "]"
  }

  // ------------------------------------------------------------ reading back

  predicate NoChar(s: string, c: char)
  {
    forall i :: 0 <= i < |s| ==> s[i] != c
  }

  /** The first part of a join ends where the string ends or at a comma. */
  lemma JoinHead(parts: seq<string>)
    requires |parts| > 0
    ensures Join(parts) == parts[0] + (if |parts| == 1 then "" else "," + Join(parts[1..]))
  {
  }

  /** Two comma-free prefixes of s that each end at a comma or at the end of s are the same prefix. */
  lemma FirstPart(s: string, a: string, b: string)
    requires a <= s && b <= s && NoChar(a, ',') && NoChar(b, ',')
    requires |a| == |s| || s[|a|] == ','
    requires |b| == |s| || s[|b|] == ','
    ensures a == b
  {
  }

  /** Joining nonempty comma-free parts can be undone. */
  lemma {:induction false} JoinInjective(xs: seq<string>, ys: seq<string>)
    requires forall i :: 0 <= i < |xs| ==> |xs[i]| > 0 && NoChar(xs[i], ',')
    requires forall i :: 0 <= i < |ys| ==> |ys[i]| > 0 && NoChar(ys[i], ',')
    requires Join(xs) == Join(ys)
    ensures xs == ys
    decreases |xs|
  {
    var s := Join(xs);
    if |xs| > 0 {
      JoinHead(xs);
    }
    if |ys| > 0 {
      JoinHead(ys);
    }
    if |xs| > 0 && |ys| > 0 {
      var a, b := xs[0], ys[0];
      FirstPart(s, a, b);
      if |xs| > 1 && |ys| > 1 {
        assert Join(xs[1..]) == s[|a| + 1..] == Join(ys[1..]);
        JoinInjective(xs[1..], ys[1..]);
        assert xs == [a] + xs[1..];
        assert ys == [b] + ys[1..];
      }
    }
  }

  /** A bracketed part: `[`, then no `]`, then `]`. */
  predicate Bracketed(p: string)
  {
    |p| >= 2 && p[0] == '[' && p[|p| - 1] == ']' && NoChar(p[..|p| - 1], ']')
  }

  /** Two bracketed prefixes of s are the same prefix: each ends at the first `]`. */
  lemma FirstBracketed(s: string, a: string, b: string)
    requires a <= s && b <= s && Bracketed(a) && Bracketed(b)
    ensures a == b
  {
  }

  /** Joining bracketed parts can be undone. */
  lemma {:induction false} JoinBracketedInjective(xs: seq<string>, ys: seq<string>)
    requires forall i :: 0 <= i < |xs| ==> Bracketed(xs[i])
    requires forall i :: 0 <= i < |ys| ==> Bracketed(ys[i])
    requires Join(xs) == Join(ys)
    ensures xs == ys
    decreases |xs|
  {
    var s := Join(xs);
    if |xs| > 0 {
      JoinHead(xs);
    }
    if |ys| > 0 {
      JoinHead(ys);
    }
    if |xs| > 0 && |ys| > 0 {
      var a, b := xs[0], ys[0];
      FirstBracketed(s, a, b);
      if |xs| > 1 && |ys| > 1 {
        assert Join(xs[1..]) == s[|a| + 1..] == Join(ys[1..]);
        JoinBracketedInjective(xs[1..], ys[1..]);
        assert xs == [a] + xs[1..];
        assert ys == [b] + ys[1..];
      }
    }
  }

  function CellTexts(row: seq<Color>): seq<string>
  {
    seq(|row|, i requires 0 <= i < |row| => CellText(row[i]))
  }

  function RowTexts(r: Raster): seq<string>
  {
    seq(|r.rows|, j requires 0 <= j < |r.rows| => RowText(r.rows[j]))
  }

  /** No cell holds `undefined`. */
  predicate Defined(r: Raster)
  {
    forall j, i :: 0 <= j < r.height && 0 <= i < r.width ==> r.rows[j][i] != Undefined
  }

  lemma JoinNoChar(parts: seq<string>, c: char)
    requires forall i :: 0 <= i < |parts| ==> NoChar(parts[i], c)
    requires c != ','
    ensures NoChar(Join(parts), c)
  {
  }

  lemma RowTextBracketed(row: seq<Color>)
    ensures Bracketed(RowText(row))
  {
    var inner := Join(CellTexts(row));
    forall i | 0 <= i < |CellTexts(row)|
      ensures NoChar(CellTexts(row)[i], ']')
    {
    }
    JoinNoChar(CellTexts(row), ']');
    assert RowText(row)[..|RowText(row)| - 1] == "[" + inner;
  }

  lemma RowTextsBracketed(r: Raster)
    ensures forall j :: 0 <= j < |RowTexts(r)| ==> Bracketed(RowTexts(r)[j])
  {
    forall j | 0 <= j < |RowTexts(r)|
      ensures Bracketed(RowTexts(r)[j])
    {
      RowTextBracketed(r.rows[j]);
    }
  }

  lemma Unbracket(inner: string)
    ensures ("[" + inner + "]")[1..|inner| + 1] == inner
  {
  }

  lemma CellTextsParts(row: seq<Color>)
    requires forall i :: 0 <= i < |row| ==> row[i] != Undefined
    ensures forall i :: 0 <= i < |CellTexts(row)| ==> |CellTexts(row)[i]| > 0 && NoChar(CellTexts(row)[i], ',')
  {
  }

  lemma RowTextInjective(a: seq<Color>, b: seq<Color>)
    requires forall i :: 0 <= i < |a| ==> a[i] != Undefined
    requires forall i :: 0 <= i < |b| ==> b[i] != Undefined
    requires RowText(a) == RowText(b)
    ensures a == b
  {
    var ta, tb := CellTexts(a), CellTexts(b);
    Unbracket(Join(ta));
    Unbracket(Join(tb));
    CellTextsParts(a);
    CellTextsParts(b);
    JoinInjective(ta, tb);
    assert |a| == |ta| == |tb| == |b|;
    forall i | 0 <= i < |a|
      ensures a[i] == b[i]
    {
      assert ta[i] == tb[i];
      CellRoundTrip(a[i]);
      CellRoundTrip(b[i]);
    }
  }

  /**
   * Grids without `undefined` cells have the same `toString` exactly when
   * they have the same rows, so the string is a sound interning key.
   */
  lemma TextInjective(a: Raster, b: Raster)
    requires Defined(a) && Defined(b)
    ensures Text(a) == Text(b) <==> a.rows == b.rows
  {
    if Text(a) == Text(b) {
      var ra, rb := RowTexts(a), RowTexts(b);
      Unbracket(Join(ra));
      Unbracket(Join(rb));
      RowTextsBracketed(a);
      RowTextsBracketed(b);
      JoinBracketedInjective(ra, rb);
      assert |a.rows| == |ra| == |rb| == |b.rows|;
      forall j | 0 <= j < |a.rows|
        ensures a.rows[j] == b.rows[j]
      {
        assert ra[j] == rb[j];
        RowTextInjective(a.rows[j], b.rows[j]);
      }
    }
  }
}
