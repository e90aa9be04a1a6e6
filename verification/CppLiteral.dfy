/** The descriptor blob in generated code: any bytes, written as string literals that a C++ compiler
reads back as the same bytes.

Characters stand for bytes.  CEscape is modelled by its documented contract: \n, \r, \t, both quotes
and the backslash get a letter escape, every other byte that does not print three octal digits.
*/
module CppLiteral {
  import opened Basics
  import opened LexicalCast

  predicate IsByte(c: char) {
    c as int < 256
  }

  predicate Prints(c: char) {
    0x20 <= c as int <= 0x7e
  }

  // ---- What the generator writes ----

  function EscapeByte(c: char): string
    requires IsByte(c)
  {
    match c
    case '\n' => "\\n"
    case '\r' => "\\r"
    case '\t' => "\\t"
    case '\"' => "\\\""
    case '\'' => "\\'"
    case '\\' => "\\\\"
    case _ =>
      if Prints(c) then [c]
      else ['\\', DigitChar(c as int / 64), DigitChar(c as int / 8 % 8), DigitChar(c as int % 8)]
  }

  function CEscape(s: string): string
    requires IsBytes(s)
  {
    if s == "" then "" else EscapeByte(s[0]) + CEscape(s[1..])
  }

  /** StringReplace(s, "?", "\\?", true). */
  function EscapeTrigraphs(s: string): string {
    if s == "" then "" else EscapeQuestion(s[0]) + EscapeTrigraphs(s[1..])
  }

  function EscapeQuestion(c: char): string {
    if c == '?' then "\\?" else [c]
  }

  const BYTES_PER_LINE: nat := 40

  function Line(indent: string, chunk: string): string
    requires IsBytes(chunk)
  {
    "\n" + indent + "  \"" + EscapeTrigraphs(CEscape(chunk)) + "\""
  }

  function Lines(indent: string, data: string): string
    requires IsBytes(data)
    decreases |data|
  {
    if data == "" then ""
    else if |data| <= BYTES_PER_LINE then Line(indent, data)
    else Line(indent, data[..BYTES_PER_LINE]) + Lines(indent, data[BYTES_PER_LINE..])
  }

  /** What follows the opening parenthesis of InternalAddGeneratedFile. */
  function Arguments(indent: string, data: string): string
    requires IsBytes(data)
  {
    Lines(indent, data) + SizeAndClose(|data|)
  }

  function SizeAndClose(size: nat): string {
    ", " + ToDecimal(size) + ");\n"
  }

  /** The printing loop of GenerateBuildDescriptors; `indent` is the printer's. */
  method PrintArguments(indent: string, data: string) returns (text: string)
    requires IsBytes(data)
    ensures text == Arguments(indent, data)
  {
    text := "";
    var i := 0;
    while i < |data|
      invariant 0 <= i
      invariant text + LinesFrom(indent, data, i) == Lines(indent, data)
    {
      var end := if i + BYTES_PER_LINE <= |data| then i + BYTES_PER_LINE else |data|;
      OneLine(indent, data, text, i, end);
      text := text + Line(indent, data[i..end]);
      i := i + BYTES_PER_LINE;
    }
    assert text + "" == text;
    SizeBehind(text, |data|);
    text := text + ", ";
    text := text + ToDecimal(|data|);
    text := text + ");\n";
  }

  /** The lines still to be printed when i bytes have been. */
  function LinesFrom(indent: string, data: string, i: nat): string
    requires IsBytes(data)
  {
    if i < |data| then Lines(indent, data[i..]) else ""
  }

  lemma {:induction false} OneLine(indent: string, data: string, text: string, i: nat, end: nat)
    requires IsBytes(data) && i < |data|
    requires end == if i + BYTES_PER_LINE <= |data| then i + BYTES_PER_LINE else |data|
    ensures (text + Line(indent, data[i..end])) + LinesFrom(indent, data, i + BYTES_PER_LINE)
         == text + LinesFrom(indent, data, i)
  {
    var rest := data[i..];
    if |rest| > BYTES_PER_LINE {
      assert rest[..BYTES_PER_LINE] == data[i..end] && rest[BYTES_PER_LINE..] == data[i + BYTES_PER_LINE..];
      Associate(text, Line(indent, data[i..end]), Lines(indent, data[i + BYTES_PER_LINE..]));
    } else {
      assert rest == data[i..end];
      Associate(text, Line(indent, rest), "");
      assert Line(indent, rest) + "" == Line(indent, rest);
    }
  }

  lemma SizeBehind(lines: string, size: nat)
    ensures lines + ", " + ToDecimal(size) + ");\n" == lines + SizeAndClose(size)
  {
  }

  // ---- What the compiler reads (C++11) ----

  /** Trigraph replacement, section 2.4. */
  function ReplaceTrigraphs(t: string): string {
    if t == "" then ""
    else if |t| >= 3 && t[0] == '?' && t[1] == '?' && t[2] in TRIGRAPHS
    then [TRIGRAPHS[t[2]]] + ReplaceTrigraphs(t[3..])
    else [t[0]] + ReplaceTrigraphs(t[1..])
  }

  const TRIGRAPHS: map<char, char> := map[
    '=' := '#', '/' := '\\', '\'' := '^', '(' := '[', ')' := ']', '!' := '|', '<' := '{', '>' := '}', '-' := '~']

  /** Line splicing, section 2.2 phase 2. */
  function Splice(t: string): string {
    if t == "" then ""
    else if |t| >= 2 && t[0] == '\\' && t[1] == '\n' then Splice(t[2..])
    else [t[0]] + Splice(t[1..])
  }

  predicate IsOctal(c: char) {
    '0' <= c <= '7'
  }

  function OctalRun(t: string): (n: nat)
    ensures n <= |t| && n <= 3
  {
    if t == "" || !IsOctal(t[0]) then 0
    else if |t| == 1 || !IsOctal(t[1]) then 1
    else if |t| == 2 || !IsOctal(t[2]) then 2
    else 3
  }

  function OctalValue(t: string): nat
    requires forall i | 0 <= i < |t| :: IsOctal(t[i])
  {
    if t == "" then 0
    else
      var last := t[|t| - 1];
      assert IsOctal(last);
      8 * OctalValue(t[..|t| - 1]) + DigitValue(last)
  }

  const SIMPLE_ESCAPES: map<char, char> := map[
    'n' := '\n', 'r' := '\r', 't' := '\t', '\"' := '\"', '\'' := '\'', '\\' := '\\', '?' := '?']

  /** The rest of a string literal behind its opening quote: its value, and what follows it.  Escapes as
      in section 2.14.3; an octal escape takes as many digits as there are, up to three. */
  function LexBody(t: string): (r: Option<(string, string)>)
    ensures r.Some? ==> |r.value.1| < |t|
  {
    if t == "" || t[0] == '\n' then None
    else if t[0] == '\"' then Some(("", t[1..]))
    else if t[0] != '\\' then Prepend(t[0], LexBody(t[1..]))
    else if |t| == 1 then None
    else if t[1] in SIMPLE_ESCAPES then Prepend(SIMPLE_ESCAPES[t[1]], LexBody(t[2..]))
    else
      var n := OctalRun(t[1..]);
      if n == 0 || OctalValue(t[1..1 + n]) > 255 then None
      else Prepend(OctalValue(t[1..1 + n]) as char, LexBody(t[1 + n..]))
  }

  function Prepend(c: char, r: Option<(string, string)>): Option<(string, string)> {
    match r
    case None => None
    case Some((s, rest)) => Some(([c] + s, rest))
  }

  function SkipBlanks(t: string): (u: string)
    ensures |u| <= |t|
  {
    if t != "" && (t[0] == ' ' || t[0] == '\n') then SkipBlanks(t[1..]) else t
  }

  /** Adjacent literals, each decoded for itself and then joined (section 2.14.5). */
  function LexLiterals(t: string): Option<(string, string)>
    decreases |t|
  {
    var u := SkipBlanks(t);
    if u == "" || u[0] != '\"' then None
    else match LexBody(u[1..])
      case None => None
      case Some((s, rest)) =>
        match LexLiterals(rest)
        case None => Some((s, SkipBlanks(rest)))
        case Some((more, end)) => Some((s + more, end))
  }

  /** The two arguments the compiler sees: the joined literals and the number behind them. */
  function Compile(text: string): Option<(string, nat)> {
    match LexLiterals(Splice(ReplaceTrigraphs(text)))
    case None => None
    case Some((bytes, rest)) =>
      match SecondArgument(rest)
      case None => None
      case Some(size) => Some((bytes, size))
  }

  /** A comma, a number and the closing parenthesis. */
  function SecondArgument(t: string): Option<nat> {
    if t == "" || t[0] != ',' then None
    else
      var number := SkipBlanks(t[1..]);
      var digits := LeadingDigits(number);
      if digits == "" || |digits| >= |number| || number[|digits|] != ')' then None
      else Some(DigitsValue(digits))
  }

  // ---- The text holds no trigraph and no spliced line ----

  predicate NoPair(t: string, x: char, y: char) {
    forall i | 0 <= i < |t| - 1 :: t[i] != x || t[i + 1] != y
  }

  lemma {:induction false} NoPairConcat(a: string, b: string, x: char, y: char)
    requires NoPair(a, x, y) && NoPair(b, x, y)
    requires a == "" || b == "" || a[|a| - 1] != x || b[0] != y
    ensures NoPair(a + b, x, y)
  {
  }

  function Escaped(s: string): string
    requires IsBytes(s)
  {
    EscapeTrigraphs(CEscape(s))
  }

  function EscapedByte(c: char): string
    requires IsByte(c)
  {
    if c == '?' then "\\?" else EscapeByte(c)
  }

  lemma {:induction false} EscapeTrigraphsConcat(a: string, b: string)
    ensures EscapeTrigraphs(a + b) == EscapeTrigraphs(a) + EscapeTrigraphs(b)
  {
    if a == "" {
      assert a + b == b;
    } else {
      EscapeTrigraphsConcat(a[1..], b);
      assert (a + b)[0] == a[0] && (a + b)[1..] == a[1..] + b;
      Associate(EscapeQuestion(a[0]), EscapeTrigraphs(a[1..]), EscapeTrigraphs(b));
    }
  }

  lemma {:induction false} EscapeTrigraphsNone(s: string)
    requires forall i | 0 <= i < |s| :: s[i] != '?'
    ensures EscapeTrigraphs(s) == s
  {
    if s != "" {
      EscapeTrigraphsNone(s[1..]);
    }
  }

  /** Byte by byte: a question mark becomes \?, any other byte what CEscape makes of it. */
  lemma {:induction false} EscapedCons(s: string)
    requires IsBytes(s) && s != ""
    ensures Escaped(s) == EscapedByte(s[0]) + Escaped(s[1..])
  {
    EscapeTrigraphsConcat(EscapeByte(s[0]), CEscape(s[1..]));
    if s[0] != '?' {
      EscapeTrigraphsNone(EscapeByte(s[0]));
    } else {
      assert EscapeTrigraphs("?") == "\\?" + EscapeTrigraphs("");
    }
  }

  lemma {:induction false} EscapedByteFacts(c: char)
    requires IsByte(c)
    ensures var e := EscapedByte(c);
            && e != "" && e[0] != '?' && e[0] != '\n'
            && NoPair(e, '?', '?') && NoPair(e, '\\', '\n')
            && (forall i | 0 <= i < |e| :: e[i] != '\n')
  {
  }

  lemma {:induction false} EscapedFacts(s: string)
    requires IsBytes(s)
    ensures var e := Escaped(s);
            && (e != "" ==> e[0] != '?' && e[0] != '\n')
            && NoPair(e, '?', '?') && NoPair(e, '\\', '\n')
  {
    if s != "" {
      EscapedCons(s);
      EscapedByteFacts(s[0]);
      EscapedFacts(s[1..]);
      NoPairConcat(EscapedByte(s[0]), Escaped(s[1..]), '?', '?');
      NoPairConcat(EscapedByte(s[0]), Escaped(s[1..]), '\\', '\n');
    }
  }

  predicate Blank(s: string) {
    forall i | 0 <= i < |s| :: s[i] == ' '
  }

  lemma {:induction false} LineFacts(indent: string, chunk: string, x: char, y: char)
    requires IsBytes(chunk) && Blank(indent) && (x, y) in {('?', '?'), ('\\', '\n')}
    ensures NoPair(Line(indent, chunk), x, y)
  {
    EscapedFacts(chunk);
    var open := "\n" + indent + "  \"";
    NoPairConcat(open, Escaped(chunk), x, y);
    NoPairConcat(open + Escaped(chunk), "\"", x, y);
  }

  lemma {:induction false} LinesFacts(indent: string, data: string, x: char, y: char)
    requires IsBytes(data) && Blank(indent) && (x, y) in {('?', '?'), ('\\', '\n')}
    ensures NoPair(Lines(indent, data), x, y)
    ensures data != "" ==> Lines(indent, data) != "" && Lines(indent, data)[|Lines(indent, data)| - 1] == '\"'
    decreases |data|
  {
    if data != "" {
      if |data| <= BYTES_PER_LINE {
        LineFacts(indent, data, x, y);
      } else {
        LineFacts(indent, data[..BYTES_PER_LINE], x, y);
        LinesFacts(indent, data[BYTES_PER_LINE..], x, y);
        NoPairConcat(Line(indent, data[..BYTES_PER_LINE]), Lines(indent, data[BYTES_PER_LINE..]), x, y);
      }
    }
  }

  /** The printed text has no "??" and no backslash at the end of a line, so the first two phases of
      translation leave it alone. */
  lemma {:induction false} EarlyPhasesChangeNothing(indent: string, data: string)
    requires IsBytes(data) && Blank(indent)
    ensures NoPair(Arguments(indent, data), '?', '?')
    ensures Splice(ReplaceTrigraphs(Arguments(indent, data))) == Arguments(indent, data)
  {
    var tail := SizeAndClose(|data|);
    forall i | 0 <= i < |tail| ensures tail[i] != '?' && tail[i] != '\\' {
      if 2 <= i < 2 + |ToDecimal(|data|)| {
        assert tail[i] == ToDecimal(|data|)[i - 2];
        assert IsDigit(ToDecimal(|data|)[i - 2]);
      }
    }
    LinesFacts(indent, data, '?', '?');
    LinesFacts(indent, data, '\\', '\n');
    NoPairConcat(Lines(indent, data), tail, '?', '?');
    NoPairConcat(Lines(indent, data), tail, '\\', '\n');
    NoTrigraphs(Arguments(indent, data));
    NoSplices(Arguments(indent, data));
  }

  lemma {:induction false} NoTrigraphs(t: string)
    requires NoPair(t, '?', '?')
    ensures ReplaceTrigraphs(t) == t
  {
    if t != "" {
      assert |t| >= 2 ==> t[0] != '?' || t[0 + 1] != '?';
      assert NoPair(t[1..], '?', '?') by {
        forall i | 0 <= i < |t[1..]| - 1 ensures t[1..][i] != '?' || t[1..][i + 1] != '?' {
          assert t[i + 1] != '?' || t[i + 1 + 1] != '?';
        }
      }
      NoTrigraphs(t[1..]);
    }
  }

  lemma {:induction false} NoSplices(t: string)
    requires NoPair(t, '\\', '\n')
    ensures Splice(t) == t
  {
    if t != "" {
      assert |t| >= 2 ==> t[0] != '\\' || t[0 + 1] != '\n';
      assert NoPair(t[1..], '\\', '\n') by {
        forall i | 0 <= i < |t[1..]| - 1 ensures t[1..][i] != '\\' || t[1..][i + 1] != '\n' {
          assert t[i + 1] != '\\' || t[i + 1 + 1] != '\n';
        }
      }
      NoSplices(t[1..]);
    }
  }

  // ---- Round trip ----

  lemma {:induction false} LexOctal(n: nat, rest: string)
    requires n < 256
    ensures LexBody(['\\', DigitChar(n / 64), DigitChar(n / 8 % 8), DigitChar(n % 8)] + rest)
         == Prepend(n as char, LexBody(rest))
  {
    var a, b, c := DigitChar(n / 64), DigitChar(n / 8 % 8), DigitChar(n % 8);
    var t := ['\\', a, b, c] + rest;
    assert t[1] == a && t[2] == b && t[3] == c && IsOctal(a) && IsOctal(b) && IsOctal(c);
    assert OctalRun(t[1..]) == 3;
    assert t[1..4] == [a, b, c] && t[4..] == rest;
    assert [a, b, c][..2] == [a, b] && [a, b][..1] == [a] && [a][..0] == "";
    assert OctalValue([a]) == n / 64;
    assert OctalValue([a, b]) == 8 * (n / 64) + n / 8 % 8 == n / 8;
    assert OctalValue([a, b, c]) == 8 * (n / 8) + n % 8 == n;
    assert a !in SIMPLE_ESCAPES;
  }

  lemma {:induction false} LexSimple(c: char, rest: string)
    requires c in SIMPLE_ESCAPES
    ensures LexBody(['\\', c] + rest) == Prepend(SIMPLE_ESCAPES[c], LexBody(rest))
  {
    assert (['\\', c] + rest)[2..] == rest;
  }

  lemma {:induction false} LexByte(c: char, rest: string)
    requires IsByte(c)
    ensures LexBody(EscapedByte(c) + rest) == Prepend(c, LexBody(rest))
  {
    match c
    case '\n' => LexSimple('n', rest);
    case '\r' => LexSimple('r', rest);
    case '\t' => LexSimple('t', rest);
    case '\"' => LexSimple('\"', rest);
    case '\'' => LexSimple('\'', rest);
    case '\\' => LexSimple('\\', rest);
    case '?' => LexSimple('?', rest);
    case _ =>
      if Prints(c) {
        assert ([c] + rest)[1..] == rest;
      } else {
        LexOctal(c as int, rest);
      }
  }

  lemma {:induction false} LexEscaped(s: string, rest: string)
    requires IsBytes(s)
    ensures LexBody(Escaped(s) + ("\"" + rest)) == Some((s, rest))
  {
    var close := "\"" + rest;
    if s == "" {
      assert Escaped(s) + close == close && close[1..] == rest;
    } else {
      EscapedCons(s);
      LexEscaped(s[1..], rest);
      LexByte(s[0], Escaped(s[1..]) + close);
      Associate(EscapedByte(s[0]), Escaped(s[1..]), close);
      assert s == [s[0]] + s[1..];
    }
  }

  lemma {:induction false} SkipSpacesOf(indent: string, rest: string)
    requires Blank(indent) && rest != "" && rest[0] != ' ' && rest[0] != '\n'
    ensures SkipBlanks(indent + rest) == rest
  {
    if indent == "" {
      assert indent + rest == rest;
    } else {
      SkipSpacesOf(indent[1..], rest);
      assert (indent + rest)[1..] == indent[1..] + rest;
    }
  }

  lemma {:induction false} LexLine(indent: string, chunk: string, rest: string)
    requires IsBytes(chunk) && Blank(indent)
    ensures LexLiterals(Line(indent, chunk) + rest)
         == match LexLiterals(rest)
            case None => Some((chunk, SkipBlanks(rest)))
            case Some((more, end)) => Some((chunk + more, end))
  {
    var body := Escaped(chunk) + ("\"" + rest);
    var t := Line(indent, chunk) + rest;
    assert t == "\n" + (indent + "  " + ("\"" + body));
    assert t[1..] == indent + "  " + ("\"" + body);
    SkipSpacesOf(indent + "  ", "\"" + body);
    assert ("\"" + body)[1..] == body;
    LexEscaped(chunk, rest);
  }

  lemma {:induction false} LexLines(indent: string, data: string, rest: string)
    requires IsBytes(data) && Blank(indent) && data != "" && rest != "" && rest[0] == ','
    ensures LexLiterals(Lines(indent, data) + rest) == Some((data, rest))
    decreases |data|
  {
    if |data| <= BYTES_PER_LINE {
      LexLine(indent, data, rest);
    } else {
      var first, others := data[..BYTES_PER_LINE], data[BYTES_PER_LINE..];
      LexLines(indent, others, rest);
      LexLine(indent, first, Lines(indent, others) + rest);
      Associate(Line(indent, first), Lines(indent, others), rest);
      assert data == first + others;
    }
  }

  lemma {:induction false} LeadingDigitsThen(d: string, rest: string)
    requires AllDigits(d) && rest != "" && !IsDigit(rest[0])
    ensures LeadingDigits(d + rest) == d
  {
    if d == "" {
      assert d + rest == rest;
    } else {
      LeadingDigitsThen(d[1..], rest);
      assert (d + rest)[1..] == d[1..] + rest;
      assert d == [d[0]] + d[1..];
    }
  }

  lemma {:induction false} SizeRoundTrip(n: nat)
    ensures SizeAndClose(n)[0] == ',' && SecondArgument(SizeAndClose(n)) == Some(n)
  {
    var digits, end := ToDecimal(n), ");\n";
    var t := ", " + digits + end;
    assert t[1..] == " " + (digits + end);
    assert IsDigit(digits[0]);
    SkipSpacesOf(" ", digits + end);
    LeadingDigitsThen(digits, end);
    ToDecimalValue(n);
  }

  /** A compiler reads the printed arguments as the original bytes and their number, for any bytes at
      all, except that an empty blob is printed as no literal. */
  lemma {:induction false} BlobRoundTrip(indent: string, data: string)
    requires IsBytes(data) && Blank(indent)
    ensures Compile(Arguments(indent, data)) == if data == "" then None else Some((data, |data|))
  {
    EarlyPhasesChangeNothing(indent, data);
    var tail := SizeAndClose(|data|);
    if data == "" {
      assert Lines(indent, data) + tail == tail;
    } else {
      SizeRoundTrip(|data|);
      LexLines(indent, data, tail);
    }
  }

  // ---- The shape of the text ----

  predicate Plain(t: string) {
    forall i | 0 <= i < |t| :: 0x20 <= t[i] as int <= 0x7e || t[i] == '\n'
  }

  lemma {:induction false} EscapedIsPlain(s: string)
    requires IsBytes(s)
    ensures Plain(Escaped(s)) && forall i | 0 <= i < |Escaped(s)| :: Escaped(s)[i] != '\n'
  {
    if s != "" {
      EscapedCons(s);
      EscapedByteFacts(s[0]);
      EscapedByteIsPlain(s[0]);
      EscapedIsPlain(s[1..]);
    }
  }

  lemma EscapedByteIsPlain(c: char)
    requires IsByte(c)
    ensures Plain(EscapedByte(c))
  {
  }

  lemma {:induction false} LinesArePlain(indent: string, data: string)
    requires IsBytes(data) && Blank(indent)
    ensures Plain(Lines(indent, data))
    decreases |data|
  {
    if data != "" {
      var end := if |data| <= BYTES_PER_LINE then |data| else BYTES_PER_LINE;
      EscapedIsPlain(data[..end]);
      assert data[..|data|] == data;
      if |data| > BYTES_PER_LINE {
        LinesArePlain(indent, data[BYTES_PER_LINE..]);
      }
    }
  }

  /** Whatever the bytes, the generated text is plain ASCII: printing characters and line ends. */
  lemma {:induction false} TextIsPlain(indent: string, data: string)
    requires IsBytes(data) && Blank(indent)
    ensures Plain(Arguments(indent, data))
  {
    LinesArePlain(indent, data);
    assert forall i | 0 <= i < |ToDecimal(|data|)| :: IsDigit(ToDecimal(|data|)[i]);
  }

  /** Six bytes have a letter or themselves behind the backslash, the question mark too; any other byte that
      does not print has three digits, and one that prints stands for itself. */
  lemma {:induction false} EscapesAre(c: char)
    requires IsByte(c)
    ensures EscapedByte('\n') == "\\n" && EscapedByte('\r') == "\\r" && EscapedByte('\t') == "\\t"
    ensures EscapedByte('\"') == "\\\"" && EscapedByte('\'') == "\\'" && EscapedByte('\\') == "\\\\"
    ensures EscapedByte('?') == "\\?"
    ensures c !in {'\n', '\r', '\t', '\"', '\'', '\\', '?'} ==>
              if 0x20 <= c as int <= 0x7e then EscapedByte(c) == [c]
              else |EscapedByte(c)| == 4 && AllDigits(EscapedByte(c)[1..])
  {
  }

  function Newlines(t: string): nat {
    if t == "" then 0 else Newlines(t[1..]) + if t[0] == '\n' then 1 else 0
  }

  lemma {:induction false} NewlinesConcat(a: string, b: string)
    ensures Newlines(a + b) == Newlines(a) + Newlines(b)
  {
    if a == "" {
      assert a + b == b;
    } else {
      NewlinesConcat(a[1..], b);
      assert (a + b)[1..] == a[1..] + b;
    }
  }

  lemma {:induction false} NoNewlines(t: string)
    requires forall i | 0 <= i < |t| :: t[i] != '\n'
    ensures Newlines(t) == 0
  {
    if t != "" {
      NoNewlines(t[1..]);
    }
  }

  lemma {:induction false} OneNewline(indent: string, chunk: string)
    requires IsBytes(chunk) && Blank(indent)
    ensures Newlines(Line(indent, chunk)) == 1
  {
    EscapedIsPlain(chunk);
    var rest := indent + "  \"" + Escaped(chunk) + "\"";
    NoNewlines(rest);
    assert Line(indent, chunk) == "\n" + rest && ("\n" + rest)[1..] == rest;
  }

  /** One line for each forty bytes, and one for what is left. */
  lemma {:induction false} FortyBytesPerLine(indent: string, data: string)
    requires IsBytes(data) && Blank(indent)
    ensures Newlines(Lines(indent, data)) == (|data| + 39) / 40
    decreases |data|
  {
    if |data| > BYTES_PER_LINE {
      OneNewline(indent, data[..BYTES_PER_LINE]);
      FortyBytesPerLine(indent, data[BYTES_PER_LINE..]);
      NewlinesConcat(Line(indent, data[..BYTES_PER_LINE]), Lines(indent, data[BYTES_PER_LINE..]));
    } else if data != "" {
      OneNewline(indent, data);
    }
  }
}
