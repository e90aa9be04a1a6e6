/** The braces of a generated header, as tokens of what the generator prints.

Names are identifiers, so they hold no braces of their own.  The signature of a function is a token of its
own, any other text without braces is Text.
*/
module HeaderNesting {
  import opened Basics
  import opened RpcServerClass

  datatype Scope = Namespace(name: string) | Class(name: string) | Body(name: string)

  /** A brace that opens or closes a scope, the signature of a function, or any other text. */
  datatype Token = Open(scope: Scope) | Close(scope: Scope) | Function(name: string) | Text(line: string)

  /** What the generator knows of a service: its class and its methods. */
  datatype ServiceInfo = ServiceInfo(name: string, methodNames: seq<string>)

  const INDENT_WIDTH: nat := 2

  class Printer {
    var tokens: seq<Token>
    var indent: nat

    constructor (indent: nat)
      ensures tokens == [] && this.indent == indent
    {
      tokens, this.indent := [], indent;
    }

    method Print(more: seq<Token>)
      modifies this`tokens
      ensures tokens == old(tokens) + more
    {
      tokens := tokens + more;
    }

    method Indent()
      modifies this`indent
      ensures indent == old(indent) + INDENT_WIDTH
    {
      indent := indent + INDENT_WIDTH;
    }

    /** Outdenting without a matching Indent is a fatal error of the printer. */
    method Outdent()
      requires indent >= INDENT_WIDTH
      modifies this`indent
      ensures indent == old(indent) - INDENT_WIDTH
    {
      indent := indent - INDENT_WIDTH;
    }
  }

  function Openers(parts: seq<string>): seq<Token> {
    if parts == [] then [] else [Open(Namespace(parts[0]))] + Openers(parts[1..])
  }

  function Closers(parts: seq<string>): seq<Token> {
    if parts == [] then [] else Closers(parts[1..]) + [Close(Namespace(parts[0]))]
  }

  /** The signatures of one method: one function, or three in a stub. */
  function Signature(name: string, stub: bool): seq<Token> {
    if stub then [Function(name), Function(name + "_Send"), Function(name + "_Recv")] else [Function(name)]
  }

  function Signatures(methodNames: seq<string>, stub: bool): seq<Token> {
    if methodNames == [] then []
    else Signatures(methodNames[..|methodNames| - 1], stub) + Signature(methodNames[|methodNames| - 1], stub)
  }

  /** A class with one inline function in front of its method signatures. */
  function ClassTokens(name: string, inner: string, methodNames: seq<string>, stub: bool): seq<Token> {
    ClassHead(name, inner) + Signatures(methodNames, stub) + ClassEnd(name)
  }

  function ClassHead(name: string, inner: string): seq<Token> {
    [Open(Class(name)), Open(Body(inner)), Close(Body(inner))]
  }

  function ClassEnd(name: string): seq<Token> {
    [Text("rest of class"), Close(Class(name))]
  }

  function Interface(s: ServiceInfo): seq<Token> {
    ClassTokens(s.name, "constructor", s.methodNames, false)
  }

  function StubDefinition(s: ServiceInfo): seq<Token> {
    ClassTokens(s.name + "_Stub", "channel", s.methodNames, true)
  }

  function Declarations(services: seq<ServiceInfo>): seq<Token> {
    if services == [] then []
    else
      var s := services[|services| - 1];
      Declarations(services[..|services| - 1]) + ([Text(s.name + "_Stub")] + Interface(s) + StubDefinition(s))
  }

  function Preamble(): seq<Token> {
    [Text("includes"), Open(Namespace("google")), Open(Namespace("protobuf")),
     Text("class ServiceDescriptor"), Text("class MethodDescriptor"),
     Close(Namespace("protobuf")), Close(Namespace("google")),
     Open(Namespace("zqrpc")), Text("class RpcChannel"), Close(Namespace("zqrpc"))]
  }

  function Header(parts: seq<string>, services: seq<ServiceInfo>): seq<Token> {
    Preamble() + Openers(parts) + [Text("assign and shutdown")] + Declarations(services) + Closers(parts)
    + [Text("#endif")]
  }

  // ---- The generator ----

  method GenerateNamespaceOpeners(printer: Printer, parts: seq<string>)
    modifies printer`tokens
    ensures printer.tokens == old(printer.tokens) + Openers(parts)
  {
    for i := 0 to |parts|
      invariant printer.tokens + Openers(parts[i..]) == old(printer.tokens) + Openers(parts)
    {
      printer.Print([Open(Namespace(parts[i]))]);
    }
  }

  method GenerateNamespaceClosers(printer: Printer, parts: seq<string>)
    modifies printer`tokens
    ensures printer.tokens == old(printer.tokens) + Closers(parts)
  {
    var i := |parts| - 1;
    assert parts[|parts|..] == [];
    while i >= 0
      invariant -1 <= i < |parts|
      invariant printer.tokens == old(printer.tokens) + Closers(parts[i + 1..])
    {
      assert parts[i..][1..] == parts[i + 1..];
      printer.Print([Close(Namespace(parts[i]))]);
      i := i - 1;
    }
  }

  method GenerateMethodSignatures(printer: Printer, methodNames: seq<string>, stub: bool)
    modifies printer`tokens
    ensures printer.tokens == old(printer.tokens) + Signatures(methodNames, stub)
  {
    for i := 0 to |methodNames|
      invariant printer.tokens == old(printer.tokens) + Signatures(methodNames[..i], stub)
    {
      var name := methodNames[i];
      assert methodNames[..i + 1][..i] == methodNames[..i];
      Associate(old(printer.tokens), Signatures(methodNames[..i], stub), Signature(name, stub));
      if stub {
        printer.Print([Function(name), Function(name + "_Send"), Function(name + "_Recv")]);
      } else {
        printer.Print([Function(name)]);
      }
    }
    assert methodNames[..|methodNames|] == methodNames;
  }

  method GenerateInterface(printer: Printer, s: ServiceInfo)
    modifies printer
    ensures printer.tokens == old(printer.tokens) + Interface(s) && printer.indent == old(printer.indent)
  {
    ghost var was := printer.tokens;
    printer.Print([Open(Class(s.name)), Open(Body("constructor")), Close(Body("constructor"))]);
    printer.Indent();
    GenerateMethodSignatures(printer, s.methodNames, false);
    printer.Outdent();
    printer.Print([Text("rest of class"), Close(Class(s.name))]);
    AppendClass(was, s.name, "constructor", s.methodNames, false);
  }

  method GenerateStubDefinition(printer: Printer, s: ServiceInfo)
    modifies printer
    ensures printer.tokens == old(printer.tokens) + StubDefinition(s) && printer.indent == old(printer.indent)
  {
    ghost var was := printer.tokens;
    printer.Print([Open(Class(s.name + "_Stub"))]);
    printer.Indent();
    printer.Print([Open(Body("channel")), Close(Body("channel"))]);
    GenerateMethodSignatures(printer, s.methodNames, true);
    printer.Outdent();
    printer.Print([Text("rest of class"), Close(Class(s.name + "_Stub"))]);
    AppendClass(was, s.name + "_Stub", "channel", s.methodNames, true);
  }

  method GenerateDeclarations(printer: Printer, s: ServiceInfo)
    modifies printer
    ensures printer.tokens == old(printer.tokens) + ([Text(s.name + "_Stub")] + Interface(s) + StubDefinition(s))
    ensures printer.indent == old(printer.indent)
  {
    ghost var was := printer.tokens;
    printer.Print([Text(s.name + "_Stub")]);
    GenerateInterface(printer, s);
    GenerateStubDefinition(printer, s);
    Associate(was, [Text(s.name + "_Stub")], Interface(s));
    Associate(was, [Text(s.name + "_Stub")] + Interface(s), StubDefinition(s));
  }

  method GenerateHeader(printer: Printer, parts: seq<string>, services: seq<ServiceInfo>)
    modifies printer
    ensures printer.tokens == old(printer.tokens) + Header(parts, services) && printer.indent == old(printer.indent)
  {
    ghost var was := printer.tokens;
    ghost var text := [Text("assign and shutdown")];
    printer.Print(Preamble());
    GenerateNamespaceOpeners(printer, parts);
    Associate(was, Preamble(), Openers(parts));
    printer.Print([Text("assign and shutdown")]);
    Associate(was, Preamble() + Openers(parts), text);
    ghost var before := printer.tokens;
    for i := 0 to |services|
      invariant printer.tokens == before + Declarations(services[..i])
      invariant printer.indent == old(printer.indent)
    {
      ghost var s := services[i];
      assert services[..i + 1][..i] == services[..i];
      Associate(before, Declarations(services[..i]), [Text(s.name + "_Stub")] + Interface(s) + StubDefinition(s));
      GenerateDeclarations(printer, services[i]);
    }
    assert services[..|services|] == services;
    Associate(was, Preamble() + Openers(parts) + text, Declarations(services));
    GenerateNamespaceClosers(printer, parts);
    Associate(was, Preamble() + Openers(parts) + text + Declarations(services), Closers(parts));
    printer.Print([Text("#endif")]);
    Associate(was, Preamble() + Openers(parts) + text + Declarations(services) + Closers(parts), [Text("#endif")]);
  }

  lemma {:induction false} AppendClass(x: seq<Token>, name: string, inner: string, methodNames: seq<string>, stub: bool)
    ensures ((x + ClassHead(name, inner)) + Signatures(methodNames, stub)) + ClassEnd(name)
         == x + ClassTokens(name, inner, methodNames, stub)
  {
    Associate(x, ClassHead(name, inner), Signatures(methodNames, stub));
    Associate(x, ClassHead(name, inner) + Signatures(methodNames, stub), ClassEnd(name));
  }

  // ---- Nesting ----

  /** Reading tokens inside the open scopes, outermost first: a closing brace has to belong to the innermost
      open one. */
  function Nest(tokens: seq<Token>, path: seq<Scope>): Option<seq<Scope>> {
    if tokens == [] then Some(path)
    else match tokens[0]
      case Open(scope) => Nest(tokens[1..], path + [scope])
      case Close(scope) =>
        if path == [] || path[|path| - 1] != scope then None else Nest(tokens[1..], path[..|path| - 1])
      case _ => Nest(tokens[1..], path)
  }

  lemma {:induction false} NestConcat(a: seq<Token>, b: seq<Token>, path: seq<Scope>)
    requires Nest(a, path).Some?
    ensures Nest(a + b, path) == Nest(b, Nest(a, path).value)
    decreases |a|
  {
    if a == [] {
      assert a + b == b;
    } else {
      assert (a + b)[1..] == a[1..] + b;
      match a[0]
      case Open(scope) => NestConcat(a[1..], b, path + [scope]);
      case Close(scope) => NestConcat(a[1..], b, path[..|path| - 1]);
      case _ => NestConcat(a[1..], b, path);
    }
  }

  /** The namespaces of a package, outermost first. */
  function Namespaces(parts: seq<string>): seq<Scope> {
    seq(|parts|, i requires 0 <= i < |parts| => Namespace(parts[i]))
  }

  lemma {:induction false} NestOpeners(parts: seq<string>, path: seq<Scope>)
    ensures Nest(Openers(parts), path) == Some(path + Namespaces(parts))
  {
    if parts == [] {
      assert path + Namespaces(parts) == path;
    } else {
      NestOpeners(parts[1..], path + [Namespace(parts[0])]);
      assert (path + [Namespace(parts[0])]) + Namespaces(parts[1..]) == path + Namespaces(parts);
    }
  }

  /** The closers undo the openers, innermost namespace first. */
  lemma {:induction false} NestClosers(parts: seq<string>, path: seq<Scope>)
    ensures Nest(Closers(parts), path + Namespaces(parts)) == Some(path)
  {
    if parts == [] {
      assert path + Namespaces(parts) == path;
    } else {
      var inner := path + [Namespace(parts[0])];
      NestClosers(parts[1..], inner);
      assert path + Namespaces(parts) == inner + Namespaces(parts[1..]);
      NestConcat(Closers(parts[1..]), [Close(Namespace(parts[0]))], path + Namespaces(parts));
      NestOne(Namespace(parts[0]), path);
    }
  }

  lemma {:induction false} NestOne(scope: Scope, path: seq<Scope>)
    ensures Nest([Close(scope)], path + [scope]) == Some(path)
  {
    assert [Close(scope)][1..] == [] && (path + [scope])[..|path|] == path;
  }

  /** Signatures and other texts leave the scopes as they are. */
  lemma {:induction false} NestTexts(tokens: seq<Token>, path: seq<Scope>)
    requires forall i | 0 <= i < |tokens| :: tokens[i].Text? || tokens[i].Function?
    ensures Nest(tokens, path) == Some(path)
  {
    if tokens != [] {
      NestTexts(tokens[1..], path);
    }
  }

  lemma {:induction false} SignaturesAreFunctions(methodNames: seq<string>, stub: bool)
    ensures forall i | 0 <= i < |Signatures(methodNames, stub)| :: Signatures(methodNames, stub)[i].Function?
  {
    if methodNames != [] {
      SignaturesAreFunctions(methodNames[..|methodNames| - 1], stub);
    }
  }

  lemma {:induction false} NestClassHead(name: string, inner: string, path: seq<Scope>)
    ensures Nest(ClassHead(name, inner), path) == Some(path + [Class(name)])
  {
    var t, open := ClassHead(name, inner), path + [Class(name)];
    assert t[1..] == [Open(Body(inner)), Close(Body(inner))] && t[1..][1..] == [Close(Body(inner))];
    NestOne(Body(inner), open);
  }

  lemma {:induction false} NestClassEnd(name: string, path: seq<Scope>)
    ensures Nest(ClassEnd(name), path + [Class(name)]) == Some(path)
  {
    assert ClassEnd(name)[1..] == [Close(Class(name))];
    NestOne(Class(name), path);
  }

  lemma {:induction false} NestClass(name: string, inner: string, methodNames: seq<string>, stub: bool,
                                     path: seq<Scope>)
    ensures Nest(ClassTokens(name, inner, methodNames, stub), path) == Some(path)
  {
    var head, body := ClassHead(name, inner), Signatures(methodNames, stub);
    NestClassHead(name, inner, path);
    SignaturesAreFunctions(methodNames, stub);
    NestTexts(body, path + [Class(name)]);
    NestConcat(head, body, path);
    NestConcat(head + body, ClassEnd(name), path);
    NestClassEnd(name, path);
  }

  lemma {:induction false} NestService(s: ServiceInfo, path: seq<Scope>)
    ensures Nest([Text(s.name + "_Stub")] + Interface(s) + StubDefinition(s), path) == Some(path)
    ensures Nest([Text(s.name + "_Stub")] + Interface(s), path) == Some(path)
  {
    var forward := [Text(s.name + "_Stub")];
    NestTexts(forward, path);
    NestClass(s.name, "constructor", s.methodNames, false, path);
    NestClass(s.name + "_Stub", "channel", s.methodNames, true, path);
    NestConcat(forward, Interface(s), path);
    NestConcat(forward + Interface(s), StubDefinition(s), path);
  }

  lemma {:induction false} NestDeclarations(services: seq<ServiceInfo>, path: seq<Scope>)
    ensures Nest(Declarations(services), path) == Some(path)
  {
    if services != [] {
      var n := |services| - 1;
      var s := services[n];
      NestDeclarations(services[..n], path);
      NestService(s, path);
      NestConcat(Declarations(services[..n]), [Text(s.name + "_Stub")] + Interface(s) + StubDefinition(s), path);
    }
  }

  lemma {:induction false} NestPreamble(path: seq<Scope>)
    ensures Nest(Preamble(), path) == Some(path)
  {
    var a := [Text("includes")];
    var inside := [Text("class ServiceDescriptor"), Text("class MethodDescriptor")];
    var outer, zqrpc := ["google", "protobuf"], ["zqrpc"];
    var first := Openers(outer) + inside + Closers(outer);
    var second := Openers(zqrpc) + [Text("class RpcChannel")] + Closers(zqrpc);
    Pair("google", "protobuf");
    Single("zqrpc");
    NestTexts(a, path);
    NestInside(outer, inside, path);
    NestInside(zqrpc, [Text("class RpcChannel")], path);
    NestConcat(first, second, path);
    NestConcat(a, first + second, path);
    assert Preamble() == a + (first + second);
  }

  lemma Pair(x: string, y: string)
    ensures Openers([x, y]) == [Open(Namespace(x)), Open(Namespace(y))]
    ensures Closers([x, y]) == [Close(Namespace(y)), Close(Namespace(x))]
  {
    assert [x, y][1..] == [y];
    Single(y);
  }

  lemma Single(x: string)
    ensures Openers([x]) == [Open(Namespace(x))] && Closers([x]) == [Close(Namespace(x))]
  {
    assert [x][1..] == [];
  }

  lemma {:induction false} NestInside(parts: seq<string>, inside: seq<Token>, path: seq<Scope>)
    requires Nest(inside, path + Namespaces(parts)) == Some(path + Namespaces(parts))
          || forall i | 0 <= i < |inside| :: inside[i].Text?
    ensures Nest(Openers(parts) + inside, path) == Some(path + Namespaces(parts))
    ensures Nest(Openers(parts) + inside + Closers(parts), path) == Some(path)
  {
    if forall i | 0 <= i < |inside| :: inside[i].Text? {
      NestTexts(inside, path + Namespaces(parts));
    }
    NestOpeners(parts, path);
    NestClosers(parts, path);
    NestConcat(Openers(parts), inside, path);
    NestConcat(Openers(parts) + inside, Closers(parts), path);
  }

  /** What stands inside the namespaces. */
  function Inside(services: seq<ServiceInfo>): seq<Token> {
    [Text("assign and shutdown")] + Declarations(services)
  }

  lemma HeaderParts(parts: seq<string>, services: seq<ServiceInfo>)
    ensures Header(parts, services)
         == Preamble() + (Openers(parts) + Inside(services) + Closers(parts)) + [Text("#endif")]
  {
  }

  lemma {:induction false} NestInsideServices(services: seq<ServiceInfo>, path: seq<Scope>)
    ensures Nest(Inside(services), path) == Some(path)
  {
    NestTexts([Text("assign and shutdown")], path);
    NestDeclarations(services, path);
    NestConcat([Text("assign and shutdown")], Declarations(services), path);
  }

  /** For any package, any services and any methods the header's braces are well nested, each closed
      under the name it was opened with, and none is left open. */
  lemma {:induction false} HeaderIsNested(parts: seq<string>, services: seq<ServiceInfo>)
    ensures Nest(Header(parts, services), []) == Some([])
  {
    var body := Openers(parts) + Inside(services) + Closers(parts);
    HeaderParts(parts, services);
    NestPreamble([]);
    NestInsideServices(services, [] + Namespaces(parts));
    NestInside(parts, Inside(services), []);
    NestTexts([Text("#endif")], []);
    NestConcat(Preamble(), body, []);
    NestConcat(Preamble() + body, [Text("#endif")], []);
  }

  // ---- Which functions each class gets ----

  /** The functions whose signatures stand directly in a scope, in order. */
  function FunctionsIn(tokens: seq<Token>, path: seq<Scope>, scope: seq<Scope>): seq<string> {
    if tokens == [] then []
    else match tokens[0]
      case Open(s) => FunctionsIn(tokens[1..], path + [s], scope)
      case Close(_) => if path == [] then [] else FunctionsIn(tokens[1..], path[..|path| - 1], scope)
      case Function(name) => (if path == scope then [name] else []) + FunctionsIn(tokens[1..], path, scope)
      case Text(_) => FunctionsIn(tokens[1..], path, scope)
  }

  lemma {:induction false} FunctionsConcat(a: seq<Token>, b: seq<Token>, path: seq<Scope>, scope: seq<Scope>)
    requires Nest(a, path).Some?
    ensures FunctionsIn(a + b, path, scope)
         == FunctionsIn(a, path, scope) + FunctionsIn(b, Nest(a, path).value, scope)
    decreases |a|
  {
    if a == [] {
      assert a + b == b;
    } else {
      assert (a + b)[1..] == a[1..] + b;
      match a[0]
      case Open(s) => FunctionsConcat(a[1..], b, path + [s], scope);
      case Close(_) => FunctionsConcat(a[1..], b, path[..|path| - 1], scope);
      case Function(name) =>
        FunctionsConcat(a[1..], b, path, scope);
        Associate(if path == scope then [name] else [], FunctionsIn(a[1..], path, scope),
                  FunctionsIn(b, Nest(a, path).value, scope));
      case Text(_) => FunctionsConcat(a[1..], b, path, scope);
    }
  }

  lemma {:induction false} NoFunctions(tokens: seq<Token>, path: seq<Scope>, scope: seq<Scope>)
    requires forall i | 0 <= i < |tokens| :: !tokens[i].Function?
    ensures FunctionsIn(tokens, path, scope) == []
    decreases |tokens|
  {
    if tokens != [] {
      match tokens[0]
      case Open(s) => NoFunctions(tokens[1..], path + [s], scope);
      case Close(_) =>
        if path != [] {
          NoFunctions(tokens[1..], path[..|path| - 1], scope);
        }
      case Text(_) => NoFunctions(tokens[1..], path, scope);
    }
  }

  /** The names of functions. */
  function NamesOf(tokens: seq<Token>): seq<string>
    requires forall i | 0 <= i < |tokens| :: tokens[i].Function?
  {
    seq(|tokens|, i requires 0 <= i < |tokens| => tokens[i].name)
  }

  lemma {:induction false} FunctionsHere(tokens: seq<Token>, path: seq<Scope>, scope: seq<Scope>)
    requires forall i | 0 <= i < |tokens| :: tokens[i].Function?
    ensures FunctionsIn(tokens, path, scope) == if path == scope then NamesOf(tokens) else []
  {
    if tokens != [] {
      FunctionsHere(tokens[1..], path, scope);
    }
  }

  /** The functions of one class stand in it, and nowhere else. */
  lemma {:induction false} FunctionsOfClass(name: string, inner: string, methodNames: seq<string>, stub: bool,
                                            path: seq<Scope>, scope: seq<Scope>)
    ensures forall i | 0 <= i < |Signatures(methodNames, stub)| :: Signatures(methodNames, stub)[i].Function?
    ensures FunctionsIn(ClassTokens(name, inner, methodNames, stub), path, scope)
         == if path + [Class(name)] == scope then NamesOf(Signatures(methodNames, stub)) else []
  {
    var head, body, end := ClassHead(name, inner), Signatures(methodNames, stub), ClassEnd(name);
    SignaturesAreFunctions(methodNames, stub);
    NestClassHead(name, inner, path);
    NestTexts(body, path + [Class(name)]);
    NestConcat(head, body, path);
    FunctionsConcat(head, body, path, scope);
    FunctionsConcat(head + body, end, path, scope);
    NoFunctions(head, path, scope);
    FunctionsHere(body, path + [Class(name)], scope);
    NoFunctions(end, path + [Class(name)], scope);
  }

  /** The functions of a stub class, three for each method. */
  ghost predicate StubFunctions(functions: seq<string>, methodNames: seq<string>) {
    && |functions| == 3 * |methodNames|
    && forall j | 0 <= j < |methodNames| ::
         && functions[3 * j] == methodNames[j]
         && functions[3 * j + 1] == methodNames[j] + "_Send"
         && functions[3 * j + 2] == methodNames[j] + "_Recv"
  }

  lemma {:induction false} InterfaceNames(methodNames: seq<string>)
    ensures forall i | 0 <= i < |Signatures(methodNames, false)| :: Signatures(methodNames, false)[i].Function?
    ensures NamesOf(Signatures(methodNames, false)) == methodNames
  {
    SignaturesAreFunctions(methodNames, false);
    if methodNames != [] {
      InterfaceNames(methodNames[..|methodNames| - 1]);
    }
  }

  lemma {:induction false} StubNames(methodNames: seq<string>)
    ensures forall i | 0 <= i < |Signatures(methodNames, true)| :: Signatures(methodNames, true)[i].Function?
    ensures StubFunctions(NamesOf(Signatures(methodNames, true)), methodNames)
  {
    SignaturesAreFunctions(methodNames, true);
    if methodNames != [] {
      StubNames(methodNames[..|methodNames| - 1]);
    }
  }

  /** The functions of every class of this name. */
  function ClassFunctions(services: seq<ServiceInfo>, name: string): seq<string> {
    if services == [] then []
    else
      var s := services[|services| - 1];
      ClassFunctions(services[..|services| - 1], name) + ServiceFunctions(s, name)
  }

  function ServiceFunctions(s: ServiceInfo, name: string): seq<string> {
    SignaturesAreFunctions(s.methodNames, false);
    SignaturesAreFunctions(s.methodNames, true);
    if s.name == name then NamesOf(Signatures(s.methodNames, false))
    else if s.name + "_Stub" == name then NamesOf(Signatures(s.methodNames, true))
    else []
  }

  lemma {:induction false} FunctionsOfService(s: ServiceInfo, path: seq<Scope>, name: string)
    ensures FunctionsIn([Text(s.name + "_Stub")] + Interface(s) + StubDefinition(s), path, path + [Class(name)])
         == ServiceFunctions(s, name)
  {
    var forward, scope := [Text(s.name + "_Stub")], path + [Class(name)];
    NestService(s, path);
    NestTexts(forward, path);
    FunctionsConcat(forward, Interface(s), path, scope);
    FunctionsConcat(forward + Interface(s), StubDefinition(s), path, scope);
    NoFunctions(forward, path, scope);
    FunctionsOfClass(s.name, "constructor", s.methodNames, false, path, scope);
    FunctionsOfClass(s.name + "_Stub", "channel", s.methodNames, true, path, scope);
    SameClass(path, s.name, name);
    SameClass(path, s.name + "_Stub", name);
    assert |s.name + "_Stub"| != |s.name|;
  }

  lemma SameClass(path: seq<Scope>, a: string, b: string)
    ensures path + [Class(a)] == path + [Class(b)] <==> a == b
  {
    assert (path + [Class(a)])[|path|] == Class(a) && (path + [Class(b)])[|path|] == Class(b);
  }

  lemma {:induction false} FunctionsOfDeclarations(services: seq<ServiceInfo>, path: seq<Scope>, name: string)
    ensures FunctionsIn(Declarations(services), path, path + [Class(name)]) == ClassFunctions(services, name)
  {
    if services != [] {
      var n := |services| - 1;
      var s := services[n];
      FunctionsOfDeclarations(services[..n], path, name);
      NestDeclarations(services[..n], path);
      FunctionsConcat(Declarations(services[..n]), [Text(s.name + "_Stub")] + Interface(s) + StubDefinition(s), path,
                      path + [Class(name)]);
      FunctionsOfService(s, path, name);
    }
  }

  /** In the whole header, the classes of a name inside the package's namespaces get exactly the functions
      of the services they stand for. */
  lemma {:induction false} FunctionsOfHeader(parts: seq<string>, services: seq<ServiceInfo>, name: string)
    ensures FunctionsIn(Header(parts, services), [], Namespaces(parts) + [Class(name)])
         == ClassFunctions(services, name)
  {
    var path := Namespaces(parts);
    var scope, open, close := path + [Class(name)], Openers(parts), Closers(parts);
    var inside, end := Inside(services), [Text("#endif")];
    assert [] + path == path;
    NestPreamble([]);
    NestInsideServices(services, path);
    NestInside(parts, inside, []);
    NestOpeners(parts, []);
    NestConcat(Preamble(), open + inside + close, []);
    FunctionsConcat(Preamble(), open + inside + close, [], scope);
    FunctionsConcat(Preamble() + (open + inside + close), end, [], scope);
    NoFunctions(Preamble(), [], scope);
    NoFunctions(end, [], scope);
    FunctionsBetween(parts, inside, scope);
    FunctionsInside(services, path, name);
    HeaderParts(parts, services);
  }

  lemma {:induction false} FunctionsBetween(parts: seq<string>, inside: seq<Token>, scope: seq<Scope>)
    requires Nest(inside, Namespaces(parts)) == Some(Namespaces(parts))
    ensures FunctionsIn(Openers(parts) + inside + Closers(parts), [], scope)
         == FunctionsIn(inside, Namespaces(parts), scope)
  {
    assert [] + Namespaces(parts) == Namespaces(parts);
    NestOpeners(parts, []);
    NestInside(parts, inside, []);
    FunctionsConcat(Openers(parts), inside, [], scope);
    FunctionsConcat(Openers(parts) + inside, Closers(parts), [], scope);
    OnlyBraces(parts);
    NoFunctions(Openers(parts), [], scope);
    NoFunctions(Closers(parts), Namespaces(parts), scope);
  }

  lemma {:induction false} OnlyBraces(parts: seq<string>)
    ensures forall i | 0 <= i < |Openers(parts)| :: Openers(parts)[i].Open?
    ensures forall i | 0 <= i < |Closers(parts)| :: Closers(parts)[i].Close?
  {
    if parts != [] {
      OnlyBraces(parts[1..]);
    }
  }

  lemma {:induction false} FunctionsInside(services: seq<ServiceInfo>, path: seq<Scope>, name: string)
    ensures FunctionsIn(Inside(services), path, path + [Class(name)]) == ClassFunctions(services, name)
  {
    var text := [Text("assign and shutdown")];
    NestTexts(text, path);
    FunctionsConcat(text, Declarations(services), path, path + [Class(name)]);
    NoFunctions(text, path, path + [Class(name)]);
    FunctionsOfDeclarations(services, path, name);
  }

  /** No two classes of the header have one name. */
  ghost predicate DistinctClasses(services: seq<ServiceInfo>) {
    && (forall i, j | 0 <= i < j < |services| :: services[i].name != services[j].name)
    && (forall i, j | 0 <= i < |services| && 0 <= j < |services| :: services[i].name != services[j].name + "_Stub")
  }

  lemma {:induction false} OnlyOwnClass(services: seq<ServiceInfo>, i: nat, name: string)
    requires i < |services| && forall j | 0 <= j < |services| && j != i :: ServiceFunctions(services[j], name) == []
    ensures ClassFunctions(services, name) == ServiceFunctions(services[i], name)
  {
    var n := |services| - 1;
    if i < n {
      OnlyOwnClass(services[..n], i, name);
    } else {
      NoSuchClass(services[..n], name);
    }
  }

  lemma {:induction false} NoSuchClass(services: seq<ServiceInfo>, name: string)
    requires forall j | 0 <= j < |services| :: ServiceFunctions(services[j], name) == []
    ensures ClassFunctions(services, name) == []
  {
    if services != [] {
      NoSuchClass(services[..|services| - 1], name);
    }
  }

  lemma SameSuffix(x: string, y: string)
    requires x + "_Stub" == y + "_Stub"
    ensures x == y
  {
    assert x == (x + "_Stub")[..|x|] && y == (y + "_Stub")[..|y|];
  }

  /** The interface class of a service declares each method once, in order, and nothing else. */
  lemma {:induction false} InterfaceDeclares(parts: seq<string>, services: seq<ServiceInfo>, i: nat)
    requires i < |services| && DistinctClasses(services)
    ensures FunctionsIn(Header(parts, services), [], Namespaces(parts) + [Class(services[i].name)])
         == services[i].methodNames
  {
    var s := services[i];
    FunctionsOfHeader(parts, services, s.name);
    OnlyOwnClass(services, i, s.name);
    InterfaceNames(s.methodNames);
  }

  /** The stub class declares three functions for each method, in order: the call, its sending half and its
      receiving half. */
  lemma {:induction false} StubDeclares(parts: seq<string>, services: seq<ServiceInfo>, i: nat)
    requires i < |services| && DistinctClasses(services)
    ensures var scope := Namespaces(parts) + [Class(services[i].name + "_Stub")];
            StubFunctions(FunctionsIn(Header(parts, services), [], scope), services[i].methodNames)
  {
    var s := services[i];
    var name := s.name + "_Stub";
    forall j | 0 <= j < |services| && j != i ensures ServiceFunctions(services[j], name) == [] {
      if services[j].name + "_Stub" == name {
        SameSuffix(services[j].name, s.name);
      }
    }
    FunctionsOfHeader(parts, services, name);
    OnlyOwnClass(services, i, name);
    assert |name| != |s.name|;
    StubNames(s.methodNames);
  }

  /** Each of the three is backed by the stub of that method, which passes the method's own index. */
  lemma {:induction false} StubsBackDeclarations(d: ServiceDescriptor, functions: seq<string>, j: nat)
    requires StubFunctions(functions, d.methodNames) && j < |d.methodNames|
    ensures |StubMethods(d)| == |d.methodNames| && StubMethods(d)[j].index == j
    ensures functions[3 * j] == StubMethods(d)[j].name
    ensures functions[3 * j + 1] == StubMethods(d)[j].name + "_Send"
    ensures functions[3 * j + 2] == StubMethods(d)[j].name + "_Recv"
  {
  }
}
