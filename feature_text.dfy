/**
 * The text format writeFeaturesToFile produces: for every feature one row made of
 * the decimal x, a comma, the decimal y and a newline, with nothing before the
 * first row and nothing after the last newline. Parse reads that format back
 * (split on newlines, then on the comma, then signed decimals).
 */
module FeatureText {
  import opened Wrappers
  import opened Geometry

  predicate IsDigit(c: char) { '0' <= c <= '9' }

  predicate AllDigits(s: string) { forall k :: 0 <= k < |s| ==> IsDigit(s[k]) }

  function DigitChar(d: nat): (c: char)
    requires d < 10
    ensures IsDigit(c) && DigitValue(c) == d
  {
    ('0' as int + d) as char
  }

  function DigitValue(c: char): int
  {
    c as int - '0' as int
  }

  /** Decimal digits of a non-negative number, most significant first, without leading zeros. */
  function NatText(n: nat): (s: string)
    ensures |s| >= 1
    decreases n
  {
    if n < 10 then [DigitChar(n)] else NatText(n / 10) + [DigitChar(n % 10)]
  }

  lemma {:induction false} NatTextDigits(n: nat)
    ensures AllDigits(NatText(n))
    decreases n
  {
    if n >= 10 {
      NatTextDigits(n / 10);
    }
  }

  /** How `os << n` prints an int: a minus sign for negative values, then the digits. */
  function IntText(n: int): (s: string)
    ensures |s| >= 1
  {
    if n < 0 then "-" + NatText(-n) else NatText(n)
  }

  /** The text of an int holds neither of the two delimiters of the file format. */
  lemma IntTextSeparators(n: int)
    ensures ',' !in IntText(n) && '\n' !in IntText(n)
  {
    var m: nat := if n < 0 then -n else n;
    NatTextDigits(m);
    assert forall k :: 0 <= k < |IntText(n)| ==> IntText(n)[k] == '-' || IsDigit(IntText(n)[k]);
  }

  /** The value of a string of digits, read left to right. */
  function DigitsValue(s: string): int
  {
    if s == [] then 0 else DigitsValue(s[..|s| - 1]) * 10 + DigitValue(s[|s| - 1])
  }

  /** A signed decimal: an optional minus sign followed by at least one digit. */
  function ParseInt(s: string): Option<int>
  {
    if |s| >= 2 && s[0] == '-' && AllDigits(s[1..]) then Some(-DigitsValue(s[1..]))
    else if |s| >= 1 && AllDigits(s) then Some(DigitsValue(s))
    else None
  }

  lemma {:induction false} NatTextValue(n: nat)
    ensures DigitsValue(NatText(n)) == n
    decreases n
  {
    if n >= 10 {
      var s := NatText(n);
      NatTextValue(n / 10);
      assert s[..|s| - 1] == NatText(n / 10);
    }
  }

  lemma IntTextRoundTrip(n: int)
    ensures ParseInt(IntText(n)) == Some(n)
  {
    var s := IntText(n);
    if n < 0 {
      var digits := NatText(-n);
      NatTextDigits(-n);
      NatTextValue(-n);
      assert s == "-" + digits;
      assert s[1..] == digits;
    } else {
      NatTextDigits(n);
      NatTextValue(n);
      assert s == NatText(n);
      assert IsDigit(s[0]);
    }
  }

  /** One row without its newline: `x,y`. */
  function Line(p: Feature): string
  {
    IntText(p.0) + "," + IntText(p.1)
  }

  /** What the loop body writes for one feature: `x,y\n`. */
  function Row(p: Feature): string
  {
    Line(p) + "\n"
  }

  /** The whole file: the rows of all features, in order; empty for no features. */
  function Serialize(features: seq<Feature>): (text: string)
    ensures text == [] <==> features == []
  {
    if features == [] then [] else Row(features[0]) + Serialize(features[1..])
  }

  lemma {:induction false} SerializeAppend(a: seq<Feature>, b: seq<Feature>)
    ensures Serialize(a + b) == Serialize(a) + Serialize(b)
    decreases |a|
  {
    if a != [] {
      assert (a + b)[1..] == a[1..] + b;
      SerializeAppend(a[1..], b);
    } else {
      assert a + b == b;
    }
  }

  /** The text of the first k features is a prefix of the text of all of them. */
  lemma SerializePrefix(features: seq<Feature>, k: nat)
    requires k <= |features|
    ensures Serialize(features[..k]) <= Serialize(features)
  {
    assert features == features[..k] + features[k..];
    SerializeAppend(features[..k], features[k..]);
  }

  lemma SerializeSingle(x: Feature)
    ensures Serialize([x]) == Row(x)
  {
    assert [x][1..] == [];
    assert Serialize([x]) == Row(x) + Serialize([]);
  }

  lemma SerializeStep(features: seq<Feature>, k: nat)
    requires k < |features|
    ensures Serialize(features[..k + 1]) == Serialize(features[..k]) + Row(features[k])
  {
    var x := features[k];
    SerializeSingle(x);
    SerializeAppend(features[..k], [x]);
    assert features[..k + 1] == features[..k] + [x];
  }

  /** Cutting a text that starts with a + b inside b. */
  lemma CutInside<T>(a: seq<T>, b: seq<T>, c: seq<T>, n: nat)
    requires a + b <= c && |a| <= n <= |a| + |b|
    ensures a + b[..n - |a|] == c[..n]
  {
    assert c[..n] == (a + b)[..n];
  }

  /** When a write of row k does not fit, the file holds the rows before k and the part of row k that fit. */
  lemma SerializeCut(features: seq<Feature>, k: nat, room: nat)
    requires k < |features|
    requires |Serialize(features[..k])| <= room < |Serialize(features[..k])| + |Row(features[k])|
    ensures room < |Serialize(features)|
    ensures Serialize(features[..k]) + Row(features[k])[..room - |Serialize(features[..k])|] == Serialize(features)[..room]
  {
    SerializeStep(features, k);
    SerializePrefix(features, k + 1);
    CutInside(Serialize(features[..k]), Row(features[k]), Serialize(features), room);
  }

  /** Position of the first occurrence of c. */
  function IndexOf(s: string, c: char): (k: nat)
    requires c in s
    ensures k < |s| && s[k] == c && c !in s[..k]
  {
    if s[0] == c then 0 else 1 + IndexOf(s[1..], c)
  }

  /** The pieces between occurrences of `sep`; there is always one more piece than separators. */
  function Split(s: string, sep: char): (parts: seq<string>)
    ensures |parts| >= 1
    decreases |s|
  {
    if sep in s then
      var k := IndexOf(s, sep);
      [s[..k]] + Split(s[k + 1..], sep)
    else
      [s]
  }

  lemma {:induction false} IndexOfFirst(a: string, c: char, b: string)
    requires c !in a
    ensures c in a + [c] + b && IndexOf(a + [c] + b, c) == |a|
    decreases |a|
  {
    var s := a + [c] + b;
    assert s[|a|] == c;
    if a != [] {
      assert s[0] == a[0];
      assert s[1..] == a[1..] + [c] + b;
      IndexOfFirst(a[1..], c, b);
    }
  }

  lemma SplitAt(a: string, sep: char, b: string)
    requires sep !in a
    ensures Split(a + [sep] + b, sep) == [a] + Split(b, sep)
  {
    var s := a + [sep] + b;
    IndexOfFirst(a, sep, b);
    assert s[..|a|] == a;
    assert s[|a| + 1..] == b;
  }

  function ParseRow(row: string): Option<Feature>
  {
    var fields := Split(row, ',');
    if |fields| != 2 then None
    else match (ParseInt(fields[0]), ParseInt(fields[1]))
      case (Some(x), Some(y)) => Some((x, y))
      case _ => None
  }

  function ParseRows(rows: seq<string>): Option<seq<Feature>>
  {
    if rows == [] then Some([])
    else match (ParseRow(rows[0]), ParseRows(rows[1..]))
      case (Some(p), Some(ps)) => Some([p] + ps)
      case _ => None
  }

  /** Reads the file back: rows split on newlines, the text must end with a newline (or be empty). */
  function Parse(text: string): Option<seq<Feature>>
  {
    var rows := Split(text, '\n');
    if rows[|rows| - 1] != "" then None else ParseRows(rows[..|rows| - 1])
  }

  function Lines(features: seq<Feature>): (rows: seq<string>)
    ensures |rows| == |features|
    ensures forall k :: 0 <= k < |rows| ==> rows[k] == Line(features[k])
  {
    if features == [] then [] else [Line(features[0])] + Lines(features[1..])
  }

  /** The text holds exactly one newline-terminated row per feature, in order, and nothing after the last newline. */
  lemma {:induction false} SerializeRows(features: seq<Feature>)
    ensures Split(Serialize(features), '\n') == Lines(features) + [""]
    decreases |features|
  {
    if features != [] {
      var p := features[0];
      IntTextSeparators(p.0);
      IntTextSeparators(p.1);
      assert '\n' !in Line(p);
      assert Serialize(features) == Line(p) + ['\n'] + Serialize(features[1..]);
      SplitAt(Line(p), '\n', Serialize(features[1..]));
      SerializeRows(features[1..]);
    }
  }

  lemma ParseLine(p: Feature)
    ensures ParseRow(Line(p)) == Some(p)
  {
    IntTextSeparators(p.0);
    IntTextSeparators(p.1);
    assert Line(p) == IntText(p.0) + [','] + IntText(p.1);
    SplitAt(IntText(p.0), ',', IntText(p.1));
    IntTextRoundTrip(p.0);
    IntTextRoundTrip(p.1);
  }

  lemma ParseRowsCons(row: string, rest: seq<string>, p: Feature, ps: seq<Feature>)
    requires ParseRow(row) == Some(p) && ParseRows(rest) == Some(ps)
    ensures ParseRows([row] + rest) == Some([p] + ps)
  {
    var rows := [row] + rest;
    assert rows[0] == row && rows[1..] == rest;
  }

  /** Rows that each parse on their own parse together, in order. */
  lemma {:induction false} ParseEachRow(rows: seq<string>, features: seq<Feature>)
    requires |rows| == |features|
    requires forall k :: 0 <= k < |rows| ==> ParseRow(rows[k]) == Some(features[k])
    ensures ParseRows(rows) == Some(features)
    decreases |rows|
  {
    if rows != [] {
      ParseEachRow(rows[1..], features[1..]);
      ParseRowsCons(rows[0], rows[1..], features[0], features[1..]);
      assert [rows[0]] + rows[1..] == rows;
      assert [features[0]] + features[1..] == features;
    }
  }

  lemma ParseLines(features: seq<Feature>)
    ensures ParseRows(Lines(features)) == Some(features)
  {
    forall k | 0 <= k < |features|
      ensures ParseRow(Lines(features)[k]) == Some(features[k])
    {
      ParseLine(features[k]);
    }
    ParseEachRow(Lines(features), features);
  }

  /** Reading back what was written yields the same features in the same order. */
  lemma RoundTrip(features: seq<Feature>)
    ensures Parse(Serialize(features)) == Some(features)
  {
    SerializeRows(features);
    ParseLines(features);
    var rows := Lines(features) + [""];
    assert rows[..|rows| - 1] == Lines(features);
  }
}
