/** The part of .NET composite formatting (string.Format) the message processor relies
    on: positional placeholders {0}, {1}, ... and the brace escapes {{ and }}. A brace
    that is not part of one of these is a format error, as in .NET. */
module CompositeFormat {
  import opened Base

  predicate IsDigit(c: char) {
    '0' <= c <= '9'
  }

  function DigitValue(c: char): (d: nat)
    requires IsDigit(c)
    ensures d < 10
  {
    c as int - '0' as int
  }

  function DigitChar(d: nat): (c: char)
    requires d < 10
    ensures IsDigit(c) && DigitValue(c) == d
  {
    ('0' as int + d) as char
  }

  predicate AllDigits(s: string) {
    forall i :: 0 <= i < |s| ==> IsDigit(s[i])
  }

  /** The length of the longest prefix of s made of decimal digits. */
  function LeadingDigits(s: string): (n: nat)
    ensures n <= |s| && AllDigits(s[..n])
    ensures n < |s| ==> !IsDigit(s[n])
  {
    if s == [] || !IsDigit(s[0]) then 0
    else
      var n := 1 + LeadingDigits(s[1..]);
      assert s[..n] == [s[0]] + s[1..][..n - 1];
      n
  }

  /** The number a string of decimal digits denotes. */
  function DecimalValue(s: string): nat
    requires AllDigits(s)
  {
    if s == [] then 0 else DecimalValue(s[..|s| - 1]) * 10 + DigitValue(s[|s| - 1])
  }

  /** The canonical decimal numeral of n. */
  function Decimal(n: nat): (s: string)
    ensures |s| > 0 && AllDigits(s)
  {
    if n < 10 then [DigitChar(n)] else Decimal(n / 10) + [DigitChar(n % 10)]
  }

  lemma {:induction false} DecimalRoundTrip(n: nat)
    ensures DecimalValue(Decimal(n)) == n
  {
    if n >= 10 {
      var s := Decimal(n);
      assert s[..|s| - 1] == Decimal(n / 10);
      DecimalRoundTrip(n / 10);
    }
  }

  function Prepend(s: string, r: Result<string>): Result<string> {
    match r
    case Ok(rest) => Ok(s + rest)
    case Err(e) => Err(e)
  }

  /** string.Format(template, args) on the subset described above. */
  function Format(t: string, args: seq<string>): (r: Result<string>)
    ensures r.Err? ==> r.error == FormatError
    decreases |t|
  {
    if t == [] then Ok([])
    else if t[0] == '{' then
      if |t| > 1 && t[1] == '{' then Prepend("{", Format(t[2..], args))
      else
        var n := LeadingDigits(t[1..]);
        if n == 0 || n + 1 == |t| || t[n + 1] != '}' then Err(FormatError)
        else
          var index := DecimalValue(t[1..][..n]);
          if index >= |args| then Err(FormatError)
          else Prepend(args[index], Format(t[n + 2..], args))
    else if t[0] == '}' then
      if |t| > 1 && t[1] == '}' then Prepend("}", Format(t[2..], args)) else Err(FormatError)
    else Prepend([t[0]], Format(t[1..], args))
  }

  // ------------------------------------------------- an independent reference

  /** A template read as a sequence of literal characters and placeholders. */
  datatype Piece = Literal(c: char) | Placeholder(index: nat)

  /** The template text of one piece: braces are escaped, a placeholder is {index}. */
  function RenderPiece(p: Piece): string {
    match p
    case Literal(c) => if c == '{' then "{{" else if c == '}' then "}}" else [c]
    case Placeholder(i) => "{" + Decimal(i) + "}"
  }

  function Render(ps: seq<Piece>): string {
    if ps == [] then [] else RenderPiece(ps[0]) + Render(ps[1..])
  }

  /** What formatting means: each literal stands for itself and placeholder i for the
      i-th argument; a placeholder without an argument is a format error. */
  function Fill(ps: seq<Piece>, args: seq<string>): Result<string> {
    if ps == [] then Ok([])
    else if ps[0].Placeholder? && ps[0].index >= |args| then Err(FormatError)
    else Prepend(Text(ps[0], args), Fill(ps[1..], args))
  }

  /** The text a literal or an available placeholder stands for. */
  function Text(p: Piece, args: seq<string>): string
    requires p.Placeholder? ==> p.index < |args|
  {
    match p
    case Literal(c) => [c]
    case Placeholder(i) => args[i]
  }

  /** One literal: the template starts with the literal's escaped text. */
  lemma FormatLiteralStep(c: char, rest: string, args: seq<string>)
    ensures Format(RenderPiece(Literal(c)) + rest, args) == Prepend([c], Format(rest, args))
  {
    var t := RenderPiece(Literal(c)) + rest;
    if c == '{' || c == '}' {
      assert t[2..] == rest;
    } else {
      assert t[1..] == rest;
    }
  }

  /** A run of digits followed by a non-digit is read up to the non-digit. */
  lemma {:induction false} DigitsBeforeBrace(d: string, rest: string)
    requires AllDigits(d)
    ensures LeadingDigits(d + "}" + rest) == |d|
  {
    if d != [] {
      DigitsBeforeBrace(d[1..], rest);
      assert (d + "}" + rest)[1..] == d[1..] + "}" + rest;
    }
  }

  /** One placeholder: the template starts with {index}. */
  lemma FormatPlaceholderStep(i: nat, rest: string, args: seq<string>)
    ensures Format(RenderPiece(Placeholder(i)) + rest, args)
         == if i < |args| then Prepend(args[i], Format(rest, args)) else Err(FormatError)
  {
    var d := Decimal(i);
    var t := RenderPiece(Placeholder(i)) + rest;
    assert t[1..] == d + "}" + rest;
    DigitsBeforeBrace(d, rest);
    assert t[1..][..|d|] == d;
    DecimalRoundTrip(i);
    assert t[|d| + 2..] == rest;
  }

  /** Formatting a rendered template substitutes every placeholder by its argument. */
  lemma {:induction false} FormatRendered(ps: seq<Piece>, args: seq<string>)
    ensures Format(Render(ps), args) == Fill(ps, args)
  {
    if ps != [] {
      FormatRendered(ps[1..], args);
      match ps[0]
      case Literal(c) => FormatLiteralStep(c, Render(ps[1..]), args);
      case Placeholder(i) => FormatPlaceholderStep(i, Render(ps[1..]), args);
    }
  }

  /** Filling fails exactly when some placeholder has no argument. */
  lemma {:induction false} FillSucceedsIff(ps: seq<Piece>, args: seq<string>)
    ensures Fill(ps, args).Ok? <==> forall k :: 0 <= k < |ps| && ps[k].Placeholder? ==> ps[k].index < |args|
    ensures Fill(ps, args).Err? ==> Fill(ps, args).error == FormatError
  {
    if ps != [] {
      FillSucceedsIff(ps[1..], args);
      assert forall k :: 1 <= k < |ps| ==> ps[k] == ps[1..][k - 1];
    }
  }

  /** A template without braces is its own formatting, whatever the arguments. */
  lemma {:induction false} FormatWithoutBraces(t: string, args: seq<string>)
    requires forall i :: 0 <= i < |t| ==> t[i] != '{' && t[i] != '}'
    ensures Format(t, args) == Ok(t)
  {
    if t != [] {
      FormatWithoutBraces(t[1..], args);
      assert [t[0]] + t[1..] == t;
    }
  }

  const ExamplePieces: seq<Piece> :=
    [Literal('X'), Literal('='), Placeholder(0), Literal(' '), Literal('Y'), Literal('='), Placeholder(1)]

  lemma RenderExample()
    ensures Render(ExamplePieces) == "X={0} Y={1}"
  {
    var ps := ExamplePieces;
    assert Render(ps[7..]) == "";
    assert ps[6..][1..] == ps[7..];
    assert Render(ps[6..]) == "{1}";
    assert ps[5..][1..] == ps[6..];
    assert Render(ps[5..]) == "={1}";
    assert ps[4..][1..] == ps[5..];
    assert Render(ps[4..]) == "Y={1}";
    assert ps[3..][1..] == ps[4..];
    assert Render(ps[3..]) == " Y={1}";
    assert ps[2..][1..] == ps[3..];
    assert Render(ps[2..]) == "{0} Y={1}";
    assert ps[1..][1..] == ps[2..];
    assert Render(ps[1..]) == "={0} Y={1}";
  }

  lemma FillExample()
    ensures Fill(ExamplePieces, ["1", "2"]) == Ok("X=1 Y=2")
  {
    var ps := ExamplePieces;
    var args := ["1", "2"];
    assert Fill(ps[7..], args) == Ok("");
    assert ps[6..][1..] == ps[7..];
    assert "2" + "" == "2";
    assert Fill(ps[6..], args) == Ok("2");
    assert ps[5..][1..] == ps[6..];
    assert "=" + "2" == "=2";
    assert Fill(ps[5..], args) == Ok("=2");
    assert ps[4..][1..] == ps[5..];
    assert "Y" + "=2" == "Y=2";
    assert Fill(ps[4..], args) == Ok("Y=2");
    assert ps[3..][1..] == ps[4..];
    assert " " + "Y=2" == " Y=2";
    assert Fill(ps[3..], args) == Ok(" Y=2");
    assert ps[2..][1..] == ps[3..];
    assert "1" + " Y=2" == "1 Y=2";
    assert Fill(ps[2..], args) == Ok("1 Y=2");
    assert ps[1..][1..] == ps[2..];
    assert "=" + "1 Y=2" == "=1 Y=2";
    assert Fill(ps[1..], args) == Ok("=1 Y=2");
    assert "X" + "=1 Y=2" == "X=1 Y=2";
  }

  /** The two-placeholder example: "X={0} Y={1}" with arguments "1" and "2". */
  lemma FormatTwoPlaceholders()
    ensures Format("X={0} Y={1}", ["1", "2"]) == Ok("X=1 Y=2")
  {
    RenderExample();
    FillExample();
    FormatRendered(ExamplePieces, ["1", "2"]);
  }
}
