/** Names in generated code: file names as identifiers, and nested types as C++ class names. */
module Names {
  import opened Basics
  import opened LexicalCast

  predicate IsAlnum(c: char) {
    'a' <= c <= 'z' || 'A' <= c <= 'Z' || '0' <= c <= '9'
  }

  // ---- FilenameIdentifier ----

  predicate IsHex(c: char) {
    '0' <= c <= '9' || 'a' <= c <= 'f'
  }

  function HexChar(d: nat): char
    requires d < 16
  {
    if d < 10 then ('0' as int + d) as char else ('a' as int + d - 10) as char
  }

  function HexValue(c: char): (d: nat)
    requires IsHex(c)
    ensures d < 16 && HexChar(d) == c
  {
    if c <= '9' then c as int - '0' as int else c as int - 'a' as int + 10
  }

  /** FastHexToBuffer of one byte: lower case, not padded. */
  function Hex(n: nat): string
    requires n < 256
  {
    if n < 16 then [HexChar(n)] else [HexChar(n / 16), HexChar(n % 16)]
  }

  function MangleByte(c: char): string
    requires c as int < 256
  {
    if IsAlnum(c) then [c] else "_" + Hex(c as int)
  }

  function Mangle(name: string): string
    requires IsBytes(name)
  {
    if name == "" then "" else MangleByte(name[0]) + Mangle(name[1..])
  }

  method FilenameIdentifier(filename: string) returns (result: string)
    requires IsBytes(filename)
    ensures result == Mangle(filename)
  {
    result := "";
    for i := 0 to |filename|
      invariant result + Mangle(filename[i..]) == Mangle(filename)
    {
      ghost var done := result;
      MangleNext(done, filename, i);
      if IsAlnum(filename[i]) {
        result := result + [filename[i]];
      } else {
        result := result + "_";
        result := result + Hex(filename[i] as int);
      }
      assert result == done + MangleByte(filename[i]);
    }
  }

  lemma {:induction false} MangleNext(done: string, name: string, i: nat)
    requires IsBytes(name) && i < |name|
    ensures done + Mangle(name[i..]) == (done + MangleByte(name[i])) + Mangle(name[i + 1..])
  {
    assert name[i..][1..] == name[i + 1..];
    Associate(done, MangleByte(name[i]), Mangle(name[i + 1..]));
  }

  /** Reading an identifier back, preferring two hex digits to one wherever two can stand for a byte. */
  function Unmangle(id: string): string {
    if id == "" then ""
    else if id[0] != '_' then [id[0]] + Unmangle(id[1..])
    else if |id| >= 3 && IsHex(id[1]) && IsHex(id[2]) && TwoDigits(id[1], id[2])
    then [Pair(id[1], id[2])] + Unmangle(id[3..])
    else if |id| >= 2 && IsHex(id[1]) then [HexValue(id[1]) as char] + Unmangle(id[2..])
    else "_" + Unmangle(id[1..])
  }

  function Pair(a: char, b: char): char
    requires IsHex(a) && IsHex(b)
  {
    (16 * HexValue(a) + HexValue(b)) as char
  }

  /** Can these two digits be the code of one byte? */
  predicate TwoDigits(a: char, b: char)
    requires IsHex(a) && IsHex(b)
  {
    a != '0' && !IsAlnum(Pair(a, b))
  }

  /** A control byte whose one hex digit runs into a digit behind it. */
  predicate Ambiguous(name: string, i: nat)
    requires i < |name|
  {
    && name[i] as int < 16 && i + 1 < |name| && IsHex(name[i + 1])
    && TwoDigits(HexChar(name[i] as int), name[i + 1])
  }

  predicate Clean(name: string) {
    forall i | 0 <= i < |name| :: !Ambiguous(name, i)
  }

  lemma {:induction false} CleanTail(name: string)
    requires name != ""
    ensures Clean(name) <==> !Ambiguous(name, 0) && Clean(name[1..])
  {
    forall i | 0 <= i < |name| - 1 ensures Ambiguous(name[1..], i) == Ambiguous(name, i + 1) {}
    if !Ambiguous(name, 0) && Clean(name[1..]) {
      forall i | 0 <= i < |name| ensures !Ambiguous(name, i) {
        if i > 0 {
          assert !Ambiguous(name[1..], i - 1);
        }
      }
    }
  }

  /** What Unmangle takes off the front of a mangled name. */
  lemma {:induction false} UnmangleFirst(name: string)
    requires IsBytes(name) && name != ""
    ensures !Ambiguous(name, 0) ==> Unmangle(Mangle(name)) == [name[0]] + Unmangle(Mangle(name[1..]))
    ensures Ambiguous(name, 0) ==>
      Unmangle(Mangle(name)) == [Pair(HexChar(name[0] as int), name[1])] + Unmangle(Mangle(name[2..]))
  {
    var rest := Mangle(name[1..]);
    if name[0] as int >= 16 || IsAlnum(name[0]) {
      UnmangleWide(name[0], rest);
    } else if |name| > 1 && IsHex(name[1]) && TwoDigits(HexChar(name[0] as int), name[1]) {
      ControlAndDigit(name);
      UnmanglePair(HexChar(name[0] as int), name[1], Mangle(name[2..]));
    } else {
      if |name| > 1 {
        assert rest == MangleByte(name[1]) + Mangle(name[1..][1..]);
      }
      UnmangleControl(name[0], rest);
    }
  }

  lemma {:induction false} UnmangleWide(c: char, rest: string)
    requires IsAlnum(c) || 16 <= c as int < 256
    ensures Unmangle(MangleByte(c) + rest) == [c] + Unmangle(rest)
  {
    if IsAlnum(c) {
      assert ([c] + rest)[1..] == rest;
    } else {
      HexOfChar(c as int / 16);
      HexOfChar(c as int % 16);
      UnmanglePair(HexChar(c as int / 16), HexChar(c as int % 16), rest);
    }
  }

  lemma {:induction false} UnmanglePair(a: char, b: char, rest: string)
    requires IsHex(a) && IsHex(b) && TwoDigits(a, b)
    ensures Unmangle(['_', a, b] + rest) == [Pair(a, b)] + Unmangle(rest)
  {
    assert (['_', a, b] + rest)[3..] == rest;
  }

  lemma {:induction false} UnmangleControl(c: char, rest: string)
    requires c as int < 16
    requires rest != "" && IsHex(rest[0]) ==> !TwoDigits(HexChar(c as int), rest[0])
    ensures Unmangle(MangleByte(c) + rest) == [c] + Unmangle(rest)
  {
    var id := MangleByte(c) + rest;
    HexOfChar(c as int);
    assert id[1] == HexChar(c as int) && id[2..] == rest;
  }

  lemma {:induction false} HexOfChar(d: nat)
    requires d < 16
    ensures IsHex(HexChar(d)) && HexValue(HexChar(d)) == d
  {
  }

  /** An identifier reads back as the file name it was made from exactly when the name is clean. */
  lemma {:induction false} UnmangleInverts(name: string)
    requires IsBytes(name)
    ensures Unmangle(Mangle(name)) == name <==> Clean(name)
  {
    if name != "" {
      CleanTail(name);
      UnmangleFirst(name);
      UnmangleInverts(name[1..]);
      if Ambiguous(name, 0) {
        PairIsLarge(HexChar(name[0] as int), name[1]);
        assert Unmangle(Mangle(name))[0] != name[0];
      } else {
        assert name == [name[0]] + name[1..];
        SameBehind(name[0], Unmangle(Mangle(name[1..])), name[1..]);
      }
    }
  }

  lemma SameBehind(c: char, x: string, y: string)
    ensures [c] + x == [c] + y <==> x == y
  {
    assert ([c] + x)[1..] == x && ([c] + y)[1..] == y;
  }

  lemma {:induction false} PairIsLarge(a: char, b: char)
    requires IsHex(a) && IsHex(b) && TwoDigits(a, b)
    ensures 16 <= Pair(a, b) as int < 256 && MangleByte(Pair(a, b)) == ['_', a, b]
  {
    assert HexValue(a) >= 1;
    var n := Pair(a, b) as int;
    assert n / 16 == HexValue(a) && n % 16 == HexValue(b);
  }

  /** What is read back always has the same identifier. */
  lemma {:induction false} SameIdentifier(name: string)
    requires IsBytes(name)
    ensures IsBytes(Unmangle(Mangle(name))) && Mangle(Unmangle(Mangle(name))) == Mangle(name)
    decreases |name|
  {
    if name != "" {
      UnmangleFirst(name);
      if Ambiguous(name, 0) {
        SameIdentifier(name[2..]);
        SameBehindPair(name);
      } else {
        SameIdentifier(name[1..]);
        MangleCons(name[0], Unmangle(Mangle(name[1..])));
      }
    }
  }

  lemma {:induction false} SameBehindPair(name: string)
    requires IsBytes(name) && name != "" && Ambiguous(name, 0)
    requires var rest := Unmangle(Mangle(name[2..])); IsBytes(rest) && Mangle(rest) == Mangle(name[2..])
    ensures var read := [Pair(HexChar(name[0] as int), name[1])] + Unmangle(Mangle(name[2..]));
            IsBytes(read) && Mangle(read) == Mangle(name)
  {
    var a, b := HexChar(name[0] as int), name[1];
    var rest := Unmangle(Mangle(name[2..]));
    PairIsLarge(a, b);
    MangleCons(Pair(a, b), rest);
    ControlAndDigit(name);
  }

  lemma {:induction false} ControlAndDigit(name: string)
    requires IsBytes(name) && |name| >= 2 && name[0] as int < 16 && IsHex(name[1])
    ensures Mangle(name) == ['_', HexChar(name[0] as int), name[1]] + Mangle(name[2..])
  {
    var a, b := HexChar(name[0] as int), name[1];
    TwoBytes(name);
    Associate(['_', a], [b], Mangle(name[2..]));
    assert MangleByte(name[0]) == ['_', a] && MangleByte(b) == [b];
    assert ['_', a] + [b] == ['_', a, b];
  }

  lemma {:induction false} TwoBytes(name: string)
    requires IsBytes(name) && |name| >= 2
    ensures Mangle(name) == MangleByte(name[0]) + (MangleByte(name[1]) + Mangle(name[2..]))
  {
    assert name[1..][1..] == name[2..];
  }

  lemma {:induction false} MangleCons(c: char, rest: string)
    requires c as int < 256 && IsBytes(rest)
    ensures IsBytes([c] + rest) && Mangle([c] + rest) == MangleByte(c) + Mangle(rest)
  {
    assert ([c] + rest)[1..] == rest;
  }

  /** A byte that is written with two hex digits. */
  predicate Wide(c: char) {
    c as int >= 16 && !IsAlnum(c)
  }

  /** Reading back the identifier of a name that is not clean puts a wide byte where two bytes were. */
  lemma {:induction false} UncleanReadsWide(name: string)
    requires IsBytes(name) && !Clean(name)
    ensures exists c :: c in Unmangle(Mangle(name)) && Wide(c)
  {
    CleanTail(name);
    UnmangleFirst(name);
    var read := Unmangle(Mangle(name));
    if Ambiguous(name, 0) {
      PairIsLarge(HexChar(name[0] as int), name[1]);
      assert read[0] == Pair(HexChar(name[0] as int), name[1]) && Wide(read[0]) && read[0] in read;
    } else {
      UncleanReadsWide(name[1..]);
      var c :| c in Unmangle(Mangle(name[1..])) && Wide(c);
      assert c in read;
    }
  }

  lemma {:induction false} WideSplits(c: char) returns (high: char, low: char)
    requires c as int < 256 && Wide(c)
    ensures high as int < 256 && low as int < 256 && MangleByte(c) == MangleByte(high) + MangleByte(low)
  {
    high, low := (c as int / 16) as char, HexChar(c as int % 16);
    HexOfChar(c as int % 16);
    assert MangleByte(high) == ['_', HexChar(c as int / 16)] && MangleByte(low) == [low];
  }

  /** A wide byte looks like a control byte and the digit behind it. */
  lemma {:induction false} WideShares(name: string, i: nat) returns (other: string)
    requires IsBytes(name) && i < |name| && Wide(name[i])
    ensures IsBytes(other) && |other| == |name| + 1 && Mangle(other) == Mangle(name)
  {
    if i == 0 {
      var high, low := WideSplits(name[0]);
      MangleCons(low, name[1..]);
      MangleCons(high, [low] + name[1..]);
      other := [high] + ([low] + name[1..]);
      Associate(MangleByte(high), MangleByte(low), Mangle(name[1..]));
    } else {
      var rest := WideShares(name[1..], i - 1);
      other := [name[0]] + rest;
      MangleCons(name[0], rest);
    }
  }

  /** Each identifier is that of exactly one clean name, the one that is read back from it: two names share
      their identifier exactly when the same name is read back for both. */
  lemma {:induction false} CleanRepresentative(a: string, b: string)
    requires IsBytes(a) && IsBytes(b)
    ensures IsBytes(Unmangle(Mangle(a))) && Clean(Unmangle(Mangle(a))) && Mangle(Unmangle(Mangle(a))) == Mangle(a)
    ensures Mangle(a) == Mangle(b) <==> Unmangle(Mangle(a)) == Unmangle(Mangle(b))
  {
    SameIdentifier(a);
    SameIdentifier(b);
    UnmangleInverts(Unmangle(Mangle(a)));
  }

  /** Clean names, in particular all names without bytes below 0x10, never share an identifier; every
      other name shares its identifier with a clean one. */
  lemma {:induction false} IdentifiersDiffer(a: string, b: string)
    requires IsBytes(a) && IsBytes(b)
    ensures Clean(a) && Clean(b) && Mangle(a) == Mangle(b) ==> a == b
    ensures !Clean(a) ==> exists other :: IsBytes(other) && Clean(other) && other != a && Mangle(other) == Mangle(a)
    ensures (forall i | 0 <= i < |a| :: a[i] as int >= 16) ==> Clean(a)
  {
    UnmangleInverts(a);
    UnmangleInverts(b);
    CleanRepresentative(a, b);
  }

  /** The names that share their identifier with another name are exactly those that are not clean and
      those with a wide byte, such as a dot. */
  lemma {:induction false} SharesIdentifier(a: string)
    requires IsBytes(a)
    ensures (exists other :: IsBytes(other) && other != a && Mangle(other) == Mangle(a))
       <==> !Clean(a) || exists i :: 0 <= i < |a| && Wide(a[i])
  {
    if !Clean(a) {
      IdentifiersDiffer(a, a);
    } else if i :| 0 <= i < |a| && Wide(a[i]) {
      var other := WideShares(a, i);
    } else {
      forall other | IsBytes(other) && Mangle(other) == Mangle(a) ensures other == a {
        UnmangleInverts(a);
        UnmangleInverts(other);
        if !Clean(other) {
          UncleanReadsWide(other);
        }
      }
    }
  }

  /** The identifier uses letters, digits and underscores only. */
  lemma {:induction false} IdentifierCharacters(name: string)
    requires IsBytes(name)
    ensures forall i | 0 <= i < |Mangle(name)| :: IsAlnum(Mangle(name)[i]) || Mangle(name)[i] == '_'
  {
    if name != "" {
      IdentifierCharacters(name[1..]);
    }
  }

  /** Letters and digits stand for themselves. */
  lemma {:induction false} AlnumUnchanged(name: string)
    requires IsBytes(name)
    requires forall i | 0 <= i < |name| ::
               'a' <= name[i] <= 'z' || 'A' <= name[i] <= 'Z' || '0' <= name[i] <= '9'
    ensures Mangle(name) == name
  {
    if name != "" {
      AlnumUnchanged(name[1..]);
      assert name == [name[0]] + name[1..];
    }
  }

  /** The hex being unpadded matters: a line feed followed by "b" and the single byte 0xAB. */
  lemma {:induction false} CollisionExample()
    ensures IsBytes("\nb") && Mangle("\nb") == "_ab" == Mangle([171 as char])
  {
    assert "\nb"[1..] == "b" && "b"[1..] == "";
    assert Mangle("b") == "b";
    assert MangleByte('\n') == "_a";
    assert Mangle("\nb") == "_a" + "b";
    assert [171 as char][1..] == "";
    assert HexChar(171 / 16) == 'a' && HexChar(171 % 16) == 'b';
    assert MangleByte(171 as char) == "_ab";
  }

  // ---- ClassName ----

  /** A message type, inside another or at the top of its file. */
  datatype Descriptor = TopLevel(package: string, name: string) | Nested(container: Descriptor, name: string) {
    function FullName(): string {
      match this
      case TopLevel(package, name) => if package == "" then name else package + "." + name
      case Nested(container, name) => container.FullName() + "." + name
    }

    function Outermost(): Descriptor {
      match this
      case TopLevel(_, _) => this
      case Nested(container, _) => container.Outermost()
    }
  }

  /** StringReplace(s, ".", sep, true). */
  function ReplaceDots(s: string, sep: string): string {
    if s == "" then "" else (if s[0] == '.' then sep else [s[0]]) + ReplaceDots(s[1..], sep)
  }

  /** The class of a message, by nesting: a nested type appends its own name behind an underscore. */
  function ClassNameOf(d: Descriptor, qualified: bool): string {
    match d
    case TopLevel(_, name) => if qualified then "::" + ReplaceDots(d.FullName(), "::") else name
    case Nested(container, name) => ClassNameOf(container, qualified) + ReplaceDots("." + name, "_")
  }

  lemma {:induction false} OutermostIsPrefix(d: Descriptor)
    ensures d.Outermost().TopLevel? && d.Outermost().FullName() <= d.FullName()
  {
    if d.Nested? {
      OutermostIsPrefix(d.container);
      assert d.container.FullName() <= d.FullName();
    }
  }

  lemma {:induction false} ReplaceDotsConcat(a: string, b: string, sep: string)
    ensures ReplaceDots(a + b, sep) == ReplaceDots(a, sep) + ReplaceDots(b, sep)
  {
    if a == "" {
      assert a + b == b;
    } else {
      ReplaceDotsConcat(a[1..], b, sep);
      assert (a + b)[1..] == a[1..] + b;
      var x, y, z := if a[0] == '.' then sep else [a[0]], ReplaceDots(a[1..], sep), ReplaceDots(b, sep);
      assert ReplaceDots(a + b, sep) == x + (y + z);
      assert x + (y + z) == (x + y) + z;
    }
  }

  /** The part of the full name behind the outermost type, as ClassName cuts it off. */
  lemma {:induction false} InnerName(d: Descriptor, qualified: bool)
    ensures d.Outermost().FullName() <= d.FullName()
    ensures ClassNameOf(d, qualified)
         == ClassNameOf(d.Outermost(), qualified) + ReplaceDots(d.FullName()[|d.Outermost().FullName()|..], "_")
  {
    OutermostIsPrefix(d);
    if d.Nested? {
      var outer := d.Outermost().FullName();
      OutermostIsPrefix(d.container);
      var inner := d.container.FullName()[|outer|..];
      InnerName(d.container, qualified);
      assert d.FullName()[|outer|..] == inner + ("." + d.name);
      ReplaceDotsConcat(inner, "." + d.name, "_");
      Associate(ClassNameOf(d.Outermost(), qualified), ReplaceDots(inner, "_"), ReplaceDots("." + d.name, "_"));
    }
  }

  /** The qualified name is the package in colons in front of the unqualified one. */
  lemma {:induction false} QualifiedName(d: Descriptor, package: string, outer: string)
    requires d.Outermost() == TopLevel(package, outer) && '.' !in outer
    ensures ClassNameOf(d, true)
         == (if package == "" then "::" else "::" + ReplaceDots(package, "::") + "::") + ClassNameOf(d, false)
  {
    match d
    case TopLevel(_, _) => QualifiedTopLevel(package, outer);
    case Nested(container, name) =>
      QualifiedName(container, package, outer);
      Associate(if package == "" then "::" else "::" + ReplaceDots(package, "::") + "::",
                ClassNameOf(container, false), ReplaceDots("." + name, "_"));
  }

  lemma {:induction false} QualifiedTopLevel(package: string, name: string)
    requires '.' !in name
    ensures ClassNameOf(TopLevel(package, name), true)
         == (if package == "" then "::" else "::" + ReplaceDots(package, "::") + "::") + name
  {
    NoDotsToReplace(name, "::");
    if package != "" {
      var colons := ReplaceDots(package, "::");
      ReplaceDotsConcat(package + ".", name, "::");
      ReplaceDotsConcat(package, ".", "::");
      assert "."[1..] == "" && ReplaceDots(".", "::") == "::";
      Associate("::", colons + "::", name);
      Associate("::", colons, "::");
    }
  }

  /** The unqualified name of an outermost type is its own name, and the name of a nested one puts its own
      behind its container's. */
  lemma {:induction false} UnqualifiedName(d: Descriptor)
    requires '.' !in d.name
    ensures d.TopLevel? ==> ClassNameOf(d, false) == d.name
    ensures d.Nested? ==> ClassNameOf(d, false) == ClassNameOf(d.container, false) + "_" + d.name
  {
    if d.Nested? {
      NoDotsToReplace(d.name, "_");
      assert ("." + d.name)[1..] == d.name;
      Associate(ClassNameOf(d.container, false), "_", d.name);
    }
  }

  /** A full name begins with the package, if there is one, and goes on with every name from the outermost
      inwards, with dots between them. */
  lemma {:induction false} FullNameParts(d: Descriptor, package: string, outer: string)
    requires d.Outermost() == TopLevel(package, outer)
    ensures (if package == "" then outer else package + "." + outer) <= d.FullName()
    ensures d.TopLevel? ==> d.FullName() == if package == "" then outer else package + "." + outer
    ensures d.Nested? ==> d.FullName() == d.container.FullName() + "." + d.name
  {
    OutermostIsPrefix(d);
  }

  /** Message B in A of package p.q. */
  lemma {:induction false} NestedExample()
    ensures var d := Nested(TopLevel("p.q", "A"), "B");
            && d.FullName() == "p.q.A.B"
            && ClassNameOf(d, false) == "A_B" && ClassNameOf(d, true) == "::p::q::A_B"
  {
    var d := Nested(TopLevel("p.q", "A"), "B");
    UnqualifiedName(d);
    QualifiedName(d, "p.q", "A");
    PackageColons();
    assert "::" + "p::q" + "::" == "::p::q::";
    assert "::p::q::" + "A_B" == "::p::q::A_B";
    assert "p.q" + "." + "A" == "p.q.A";
  }

  lemma PackageColons()
    ensures ReplaceDots("p.q", "::") == "p::q"
  {
    assert "p.q"[1..] == ".q" && ".q"[1..] == "q" && "q"[1..] == "";
    assert ReplaceDots("q", "::") == "q";
    assert ReplaceDots(".q", "::") == "::" + "q";
  }

  method ClassName(descriptor: Descriptor, qualified: bool) returns (result: string)
    ensures result == ClassNameOf(descriptor, qualified)
  {
    var outer := descriptor;
    while outer.Nested?
      invariant outer.Outermost() == descriptor.Outermost()
      decreases outer
    {
      outer := outer.container;
    }
    InnerName(descriptor, qualified);
    var outerName := outer.FullName();
    var innerName := descriptor.FullName()[|outerName|..];
    if qualified {
      result := "::" + ReplaceDots(outerName, "::") + ReplaceDots(innerName, "_");
    } else {
      result := outer.name + ReplaceDots(innerName, "_");
    }
  }

  /** An enum: the package stands in its full name only when no message contains it. */
  datatype EnumDescriptor = EnumDescriptor(package: string, container: Option<Descriptor>, name: string) {
    /** The message that would have the same full name. */
    function AsMessage(): Descriptor {
      match container
      case None => TopLevel(package, name)
      case Some(c) => Nested(c, name)
    }
  }

  /** For any name a .proto file can give an enum, the result is the class name of the message that would
      stand in its place, but for the leading "::" outside any message. */
  method EnumClassName(e: EnumDescriptor, qualified: bool) returns (result: string)
    ensures result == EnumClassNameOf(e, qualified)
    ensures '.' !in e.name ==>
              ClassNameOf(e.AsMessage(), qualified) == (if qualified && e.container.None? then "::" else "") + result
  {
    if '.' !in e.name {
      EnumLikeMessage(e, qualified);
    }
    if e.container.None? {
      if qualified {
        return ReplaceDots(e.AsMessage().FullName(), "::");
      }
      return e.name;
    }
    result := ClassName(e.container.value, qualified);
    result := result + "_";
    result := result + e.name;
  }

  function EnumClassNameOf(e: EnumDescriptor, qualified: bool): string {
    match e.container
    case None => if qualified then ReplaceDots(e.AsMessage().FullName(), "::") else e.name
    case Some(c) => ClassNameOf(c, qualified) + "_" + e.name
  }

  lemma {:induction false} NoDotsToReplace(s: string, sep: string)
    requires '.' !in s
    ensures ReplaceDots(s, sep) == s
  {
    if s != "" {
      NoDotsToReplace(s[1..], sep);
    }
  }

  /** An enum is named as a message in its place would be, except that the leading "::" is missing from
      the qualified name of an enum outside any message. */
  lemma {:induction false} EnumLikeMessage(e: EnumDescriptor, qualified: bool)
    requires '.' !in e.name
    ensures ClassNameOf(e.AsMessage(), qualified)
         == (if qualified && e.container.None? then "::" else "") + EnumClassNameOf(e, qualified)
  {
    if e.container.Some? {
      NoDotsToReplace(e.name, "_");
      assert ("." + e.name)[1..] == e.name;
      assert ReplaceDots("." + e.name, "_") == "_" + e.name;
      var x := ClassNameOf(e.container.value, qualified);
      assert x + ("_" + e.name) == x + "_" + e.name == "" + (x + "_" + e.name);
    } else {
      assert "" + e.name == e.name;
    }
  }

  /** Reading a class name back as a full name: both separators stand for a dot. */
  function Undo(s: string): string {
    if s == "" then ""
    else if s[0] == '_' then "." + Undo(s[1..])
    else if |s| >= 2 && s[0] == ':' && s[1] == ':' then "." + Undo(s[2..])
    else [s[0]] + Undo(s[1..])
  }

  lemma {:induction false} UndoReplace(s: string, sep: string, rest: string)
    requires (sep == "::" || sep == "_") && '_' !in s && ':' !in s
    ensures Undo(ReplaceDots(s, sep) + rest) == s + Undo(rest)
  {
    if s == "" {
      assert ReplaceDots(s, sep) + rest == rest;
    } else {
      assert s[0] in s;
      var others := ReplaceDots(s[1..], sep);
      UndoReplace(s[1..], sep, rest);
      Associate(if s[0] == '.' then sep else [s[0]], others, rest);
      UndoFirst(s[0], sep, others + rest);
      assert s == [s[0]] + s[1..];
      Associate([s[0]], s[1..], Undo(rest));
    }
  }

  lemma {:induction false} UndoFirst(c: char, sep: string, rest: string)
    requires (sep == "::" || sep == "_") && c != '_' && c != ':'
    ensures Undo((if c == '.' then sep else [c]) + rest) == [c] + Undo(rest)
  {
    var first := if c == '.' then sep else [c];
    assert (first + rest)[|first|..] == rest;
  }

  /** On full names without underscores the qualified class name can be read back, so no two of them
      share a class name. */
  lemma {:induction false} ClassNameReadsBack(d: Descriptor)
    requires '_' !in d.FullName() && ':' !in d.FullName()
    ensures "::" <= ClassNameOf(d, true) && Undo(ClassNameOf(d, true)[2..]) == d.FullName()
  {
    InnerName(d, true);
    OutermostIsPrefix(d);
    var outer := d.Outermost().FullName();
    var inner := d.FullName()[|outer|..];
    assert d.FullName() == outer + inner;
    Associate("::", ReplaceDots(outer, "::"), ReplaceDots(inner, "_"));
    assert ClassNameOf(d, true)[2..] == ReplaceDots(outer, "::") + ReplaceDots(inner, "_");
    UndoBoth(outer, inner);
  }

  lemma {:induction false} UndoBoth(outer: string, inner: string)
    requires '_' !in outer + inner && ':' !in outer + inner
    ensures Undo(ReplaceDots(outer, "::") + ReplaceDots(inner, "_")) == outer + inner
  {
    var tail := ReplaceDots(inner, "_");
    assert forall c | c in outer || c in inner :: c in outer + inner;
    UndoReplace(outer, "::", tail);
    UndoReplace(inner, "_", "");
    assert tail + "" == tail && inner + "" == inner;
  }

  lemma {:induction false} ClassNamesDiffer(a: Descriptor, b: Descriptor)
    requires '_' !in a.FullName() && ':' !in a.FullName() && '_' !in b.FullName() && ':' !in b.FullName()
    requires ClassNameOf(a, true) == ClassNameOf(b, true)
    ensures a.FullName() == b.FullName()
  {
    ClassNameReadsBack(a);
    ClassNameReadsBack(b);
  }

  /** With underscores they can: message B inside A, and message A_B. */
  lemma {:induction false} ClassNameCollision()
    ensures ClassNameOf(Nested(TopLevel("", "A"), "B"), true) == "::A_B" == ClassNameOf(TopLevel("", "A_B"), true)
  {
    NoDotsToReplace("A", "::");
    NoDotsToReplace("A_B", "::");
    NoDotsToReplace("B", "_");
    assert ("." + "B")[1..] == "B";
    assert ReplaceDots("." + "B", "_") == "_" + "B";
    assert "::" + "A" + ("_" + "B") == "::A_B";
  }
}
