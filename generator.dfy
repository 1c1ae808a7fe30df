/**
 * `LuaWrapperParser` of runtime/wrapc.cc as an object: the parser's fields
 * (`parseToken`, `currentMethod`), the generator's fields (`currentClass`,
 * `realClassName`, `methods`) and the shared output stream. The base class
 * `Parser` has no other instance, so its transitions and the subclass's
 * hooks live in one class here.
 */
module Generator {
  import opened Strings
  import opened Parsing
  import opened LuaWrapper

  /** The output stream (`cout`) that `main` and the parser both write to, one line per `endl`. */
  class Output {
    var lines: seq<string>

    constructor ()
      ensures lines == []
    {
      lines := [];
    }

    method WriteLine(s: string)
      modifies this
      ensures lines == old(lines) + [s]
    {
      lines := lines + [s];
    }

    /** One `<<` of text holding several line breaks. */
    method WriteLines(ls: seq<string>)
      modifies this
      ensures lines == old(lines) + ls
    {
      lines := lines + ls;
    }
  }

  /** The first key a `std::map<std::string, ...>` iterator visits among the keys in s. */
  method LeastKey(s: set<string>) returns (m: string)
    requires s != {}
    ensures IsLeast(m, s)
  {
    m :| m in s;
    var rest := s - {m};
    while rest != {}
      invariant rest <= s && m in s && m !in rest
      invariant forall x :: x in s && x !in rest && x != m ==> Less(m, x)
      decreases |rest|
    {
      var x :| x in rest;
      LessTotal(m, x);
      if Less(x, m) {
        forall y | y in s && y !in rest && y != x
          ensures Less(x, y)
        {
          if y != m {
            LessTransitive(x, m, y);
          }
        }
        m := x;
      }
      rest := rest - {x};
    }
  }

  /** The argument list of a call, written the way the generator's loop writes it: a `, ` before every local but the first. */
  method ArgumentList(first: nat, n: nat) returns (args: string)
    ensures args == Join(Vars(first, n), ", ")
  {
    args := "";
    var comma := "";
    var i := 0;
    while i < n
      invariant 0 <= i <= n
      invariant args == ArgList(first, i)
      invariant comma == if i == 0 then "" else ", "
    {
      args := args + comma + Var(first + i);
      comma := ", ";
      i := i + 1;
    }
    ArgListJoinsVars(first, n);
  }

  /** Proof helper: lines written in three stretches, a prologue, the read lines and the rest. */
  lemma GlueAppended(start: seq<string>, prologue: seq<string>, body: seq<string>, head: seq<string>, rest: seq<string>, final: seq<string>)
    requires head == start + prologue + body
    requires final == head + rest
    ensures final == start + (prologue + body + rest)
  {
  }

  /** Visiting the least remaining key keeps the visit in the map's order. */
  lemma VisitNext(visited: seq<string>, rest: set<string>, cls: string, keys: set<string>)
    requires IsLeast(cls, rest)
    requires visited + SortedKeys(rest) == SortedKeys(keys)
    ensures (visited + [cls]) + SortedKeys(rest - {cls}) == SortedKeys(keys)
  {
    SortedKeysLeast(cls, rest);
    Shift(visited, cls, SortedKeys(rest - {cls}));
  }

  /** Proof helper: a line just written regrouped with the lines before it rather than after it. */
  lemma Shift(front: seq<string>, x: string, back: seq<string>)
    ensures (front + [x]) + back == front + ([x] + back)
  {
  }

  /** Proof helper: the function's opening line, the blocks and the closing lines, written in turn. */
  lemma RegistrationWritten(start: seq<string>, opening: seq<string>, blocks: seq<string>, final: seq<string>)
    requires opening == start + ["void registerLuaWrappings() {"]
    requires final == opening + blocks + ["}"] + [""]
    ensures final == start + (["void registerLuaWrappings() {"] + blocks + ["}", ""])
  {
  }

  lemma ClassBlocksSnoc(visited: seq<string>, cls: string, methods: map<string, seq<string>>)
    requires forall k :: 0 <= k < |visited| ==> visited[k] in methods
    requires cls in methods
    ensures forall k :: 0 <= k < |visited + [cls]| ==> (visited + [cls])[k] in methods
    ensures ClassBlocks(visited + [cls], methods) == ClassBlocks(visited, methods) + ClassBlock(cls, methods[cls])
  {
    assert (visited + [cls])[..|visited|] == visited;
  }

  /** One registration block per class, in increasing order of class name. */
  method WriteClassBlocks(out: Output, methods: map<string, seq<string>>)
    modifies out
    ensures out.lines == old(out.lines) + ClassBlocks(SortedKeys(methods.Keys), methods)
  {
    var rest := methods.Keys;
    ghost var visited: seq<string> := [];
    while rest != {}
      invariant rest <= methods.Keys
      invariant visited + SortedKeys(rest) == SortedKeys(methods.Keys)
      invariant forall k :: 0 <= k < |visited| ==> visited[k] in methods
      invariant out.lines == old(out.lines) + ClassBlocks(visited, methods)
      decreases |rest|
    {
      var cls := LeastKey(rest);
      assert cls in methods;
      ghost var before := out.lines;
      WriteClassBlock(out, cls, methods[cls]);
      assert (visited + [cls]) + SortedKeys(rest - {cls}) == SortedKeys(methods.Keys) by {
        VisitNext(visited, rest, cls, methods.Keys);
      }
      assert && (forall k :: 0 <= k < |visited + [cls]| ==> (visited + [cls])[k] in methods)
             && out.lines == old(out.lines) + ClassBlocks(visited + [cls], methods) by {
        ClassBlocksSnoc(visited, cls, methods);
        Regroup(old(out.lines), ClassBlocks(visited, methods), ClassBlock(cls, methods[cls]));
      }
      visited := visited + [cls];
      rest := rest - {cls};
    }
    assert visited == SortedKeys(methods.Keys);
  }

  method WriteClassBlock(out: Output, cls: string, members: seq<string>)
    modifies out
    ensures out.lines == old(out.lines) + ClassBlock(cls, members)
  {
    out.WriteLine(BaseLine(cls));
    var j := 0;
    while j < |members|
      invariant 0 <= j <= |members|
      invariant out.lines == old(out.lines) + [BaseLine(cls)] + MethodLines(cls, members[..j])
    {
      assert members[..j + 1][..j] == members[..j];
      out.WriteLine(MethodLine(cls, members[j]));
      j := j + 1;
    }
    assert members[..j] == members;
    out.WriteLine("");
  }

  class LuaWrapperParser {
    var parseToken: State
    var currentMethod: MethodDefinition
    const out: Output
    var currentClass: string
    var realClassName: string
    var methods: map<string, seq<string>>

    /** A define hook only runs inside a class, whose member list exists by then. */
    ghost predicate Valid()
      reads this
    {
      && Consistent(Config(parseToken, currentMethod))
      && (parseToken == Initial || parseToken == ClassName || currentClass in methods)
    }

    function Current(): Config
      reads this
    {
      Config(parseToken, currentMethod)
    }

    /** The generator's fields and what has been written. */
    function Snapshot(): Emitter
      reads this, out
    {
      Emitter(currentClass, realClassName, methods, out.lines)
    }

    constructor (out: Output)
      ensures Valid()
      ensures Current() == Config(Initial, Cleared)
      ensures this.out == out
      ensures currentClass == "" && realClassName == "" && methods == map[]
    {
      this.out := out;
      parseToken := Initial;
      currentMethod := Cleared;
      currentClass := "";
      realClassName := "";
      methods := map[];
    }

    method OnStartClass(name: string)
      modifies this
      ensures Current() == old(Current())
      ensures Snapshot() == React(old(Snapshot()), Event.OnStartClass(name))
    {
      currentClass := name;
      realClassName := name;
      methods := methods[name := []];
    }

    method OnRealClassName(name: string)
      modifies this
      ensures Current() == old(Current())
      ensures Snapshot() == React(old(Snapshot()), Event.OnRealClassName(name))
    {
      realClassName := name;
    }

    /** Registers `ctor` for the current class and writes its glue. */
    method OnDefineCtor(info: MethodDefinition)
      requires currentClass in methods
      modifies this, out
      ensures Current() == old(Current())
      ensures Snapshot() == React(old(Snapshot()), Event.OnDefineCtor(info))
    {
      methods := methods[currentClass := methods[currentClass] + ["ctor"]];
      WriteCtorGlue(currentClass, realClassName, info.parameters);
    }

    /** The `_<class>_ctor` glue: one read line per parameter, then the `new`, the push and `return 1`. */
    method WriteCtorGlue(cls: string, realName: string, ps: seq<string>)
      modifies out
      ensures out.lines == old(out.lines) + CtorGlue(cls, realName, ps)
    {
      out.WriteLine(Header(cls, "ctor"));
      WriteCtorReads(ps);
      ghost var head := out.lines;
      var args := ArgumentList(1, |ps|);
      ArgListJoinsVars(1, |ps|);
      out.WriteLine("  " + realName + " *r = new " + realName + "(" + args + ");");
      out.WriteLine("  luaPush<" + realName + "*>(L, r);");
      out.WriteLine("  return 1;");
      out.WriteLine("}");
      out.WriteLine("");
      GlueAppended(old(out.lines), [Header(cls, "ctor")], CtorReads(ps, 1), head,
        [NewLine(realName, |ps|), "  luaPush<" + realName + "*>(L, r);", "  return 1;", "}", ""], out.lines);
    }

    /** The constructor's read lines: parameter k, of its own type, from slot k + 1. */
    method WriteCtorReads(ps: seq<string>)
      modifies out
      ensures out.lines == old(out.lines) + CtorReads(ps, 1)
    {
      var i := 0;
      while i < |ps|
        invariant 0 <= i <= |ps|
        invariant out.lines == old(out.lines) + CtorReads(ps[..i], 1)
      {
        assert ps[..i + 1][..i] == ps[..i];
        out.WriteLine("  " + ps[i] + " " + Var(i + 1) + " = luaGet<" + Dealias(ps[i]) + ">(L, " + NatToString(i + 1) + ");");
        i := i + 1;
      }
      assert ps[..i] == ps;
    }

    /** A method's read lines: parameter k, declared with its dealiased type, from slot k + 2. */
    method WriteMethodReads(ps: seq<string>)
      modifies out
      ensures out.lines == old(out.lines) + MethodReads(ps, 2)
    {
      var i := 0;
      while i < |ps|
        invariant 0 <= i <= |ps|
        invariant out.lines == old(out.lines) + MethodReads(ps[..i], 2)
      {
        assert ps[..i + 1][..i] == ps[..i];
        out.WriteLine("  " + Dealias(ps[i]) + " " + Var(i + 2) + " = luaGet<" + Dealias(ps[i]) + ">(L, " + NatToString(i + 2) + ");");
        i := i + 1;
      }
      assert ps[..i] == ps;
    }

    /** Registers the method for the current class and writes its glue. */
    method OnDefineMethod(info: MethodDefinition)
      requires currentClass in methods
      modifies this, out
      ensures Current() == old(Current())
      ensures Snapshot() == React(old(Snapshot()), Event.OnDefineMethod(info))
    {
      methods := methods[currentClass := methods[currentClass] + [info.name]];
      WriteMethodGlue(currentClass, realClassName, info);
    }

    /** The `_<class>_<method>` glue: the depth check, the receiver, the reads, the call and the return. */
    method WriteMethodGlue(cls: string, realName: string, info: MethodDefinition)
      modifies out
      ensures out.lines == old(out.lines) + MethodGlue(cls, realName, info)
    {
      var ps := info.parameters;
      var hasThis := !info.isStatic;
      ghost var prologue := [Header(cls, info.name), DepthLine(Depth(info))] + (if info.isStatic then [] else [ReceiverLine(realName)]);
      out.WriteLine(Header(cls, info.name));
      out.WriteLine(DepthLine(|ps| + (if hasThis then 1 else 0)));
      if hasThis {
        out.WriteLine(ReceiverLine(realName));
      }
      assert out.lines == old(out.lines) + prologue;
      WriteMethodReads(ps);
      ghost var head := out.lines;
      WriteCallAndReturn(realName, info);
      GlueAppended(old(out.lines), prologue, MethodReads(ps, 2), head,
        [CallLine(realName, info), ReturnLine(info.returnType), "}", ""], out.lines);
    }

    /** The call through the receiver or the class, and the return of its result (none for `void`). */
    method WriteCallAndReturn(realName: string, info: MethodDefinition)
      modifies out
      ensures out.lines == old(out.lines) + [CallLine(realName, info), ReturnLine(info.returnType), "}", ""]
    {
      var base := if info.isStatic then realName + "::" else "obj->";
      var args := ArgumentList(2, |info.parameters|);
      ArgListJoinsVars(2, |info.parameters|);
      var call := base + info.name + "(" + args + ");";
      if info.returnType == "void" {
        out.WriteLine("  " + call);
        out.WriteLine("  return 0;");
      } else {
        out.WriteLine("  " + Dealias(info.returnType) + " ret = " + call);
        out.WriteLine("  return luaPush<" + Dealias(info.returnType) + ">(L, ret);");
      }
      out.WriteLine("}");
      out.WriteLine("");
    }

    /**
     * `(p.*p.parseToken)(token)`: the transition of the current parse
     * function, with its hook calls. A failed `assert` ends the program and is
     * reported as ok == false with nothing changed.
     */
    method ParseToken(token: string) returns (ok: bool)
      requires Valid()
      modifies this, out
      ensures Valid()
      ensures ok == !Rejects(old(parseToken), token)
      ensures ok ==> Step(old(Current()), token) == Next(Current(), Step(old(Current()), token).events)
      ensures ok ==> Snapshot() == EmitAll(old(Snapshot()), Step(old(Current()), token).events)
      ensures !ok ==> Current() == old(Current()) && Snapshot() == old(Snapshot())
    {
      ok := true;
      match parseToken
      case Initial =>
        if token == "class" {
          parseToken := ClassName;
        } else {
          ok := false;
        }
      case ClassName =>
        OnStartClass(token);
        parseToken := ClassStart;
      case RealClassName =>
        OnRealClassName(token);
        parseToken := RealClassNameEnd;
      case RealClassNameEnd =>
        if token == "]" {
          parseToken := ClassStart;
        } else {
          ok := false;
        }
      case ClassStart =>
        if token == "{" {
          parseToken := MethodReturnType;
          currentMethod := Cleared;
        } else if token == "[" {
          parseToken := RealClassName;
        }
      case MethodReturnType =>
        if token == "}" {
          parseToken := Initial;
        } else if token == "static" {
          currentMethod := currentMethod.(isStatic := true);
        } else if token == "ctor" {
          currentMethod := currentMethod.(isCtor := true);
          parseToken := ParameterListBegin;
        } else {
          currentMethod := currentMethod.(returnType := token);
          parseToken := MethodName;
        }
      case MethodName =>
        if IsSpecial(token) {
          currentMethod := currentMethod.(returnType := currentMethod.returnType + token);
        } else {
          currentMethod := currentMethod.(name := token);
          parseToken := ParameterListBegin;
        }
      case ParameterListBegin =>
        if token == "(" {
          parseToken := Parameter;
        } else {
          ok := false;
        }
      case Parameter =>
        ParseParameterToken(token);
      case CommaOrParameterListEnd =>
        ParseParameterToken(token);
    }

    /** The two states inside a parameter list, where a `)` completes the signature. */
    method ParseParameterToken(token: string)
      requires Valid() && (parseToken == Parameter || parseToken == CommaOrParameterListEnd)
      modifies this, out
      ensures Valid()
      ensures Step(old(Current()), token) == Next(Current(), Step(old(Current()), token).events)
      ensures Snapshot() == EmitAll(old(Snapshot()), Step(old(Current()), token).events)
    {
      if parseToken == Parameter {
        if token == ")" {
          FlushMethod();
        } else {
          currentMethod := currentMethod.(parameters := currentMethod.parameters + [token]);
          parseToken := CommaOrParameterListEnd;
        }
      } else {
        if token == "," {
          parseToken := Parameter;
        } else if token == ")" {
          FlushMethod();
        } else {
          var ps := currentMethod.parameters;
          var t := ps[|ps| - 1];
          ps := ps[..|ps| - 1];
          t := t + " " + token;
          currentMethod := currentMethod.(parameters := ps + [t]);
        }
      }
    }

    /** A completed signature: the define hook, then back to the return type with the accumulator cleared. */
    method FlushMethod()
      requires currentClass in methods
      modifies this, out
      ensures Current() == Config(MethodReturnType, Cleared)
      ensures Snapshot() == React(old(Snapshot()), Flush(old(currentMethod)))
      ensures Snapshot() == EmitAll(old(Snapshot()), [Flush(old(currentMethod))])
    {
      if currentMethod.isCtor {
        OnDefineCtor(currentMethod);
      } else {
        OnDefineMethod(currentMethod);
      }
      parseToken := MethodReturnType;
      currentMethod := Cleared;
      assert [Flush(old(currentMethod))][1..] == [];
    }

    /** Writes `registerLuaWrappings`: classes in key order, each with its members in registration order. */
    method RegisterWrappings()
      modifies out
      ensures out.lines == old(out.lines) + RegistrationLines(methods)
    {
      out.WriteLine("void registerLuaWrappings() {");
      ghost var opening := out.lines;
      WriteClassBlocks(out, methods);
      ghost var blocks := out.lines[|opening|..];
      out.WriteLine("}");
      out.WriteLine("");
      RegistrationWritten(old(out.lines), opening, blocks, out.lines);
    }
  }
}
