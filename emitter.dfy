/**
 * The code generator of runtime/wrapc.cc (`LuaWrapperParser`): the glue text
 * each hook writes, the map from class names to registered member names, and
 * the registration function written at the end. Output is a sequence of
 * lines; every `<< endl` ends one.
 */
module LuaWrapper {
  import opened Optional
  import opened Strings
  import opened Parsing

  // ---------------------------------------------------------------------------
  // Type aliases
  // ---------------------------------------------------------------------------

  /** The `typealias` table filled by the constructor. */
  const TypeAlias: map<string, string> := map["int" := "lua_Integer", "bool" := "lua_Integer", "double" := "lua_Number"]

  /** `dealias`: the Lua name of an aliased type, any other type unchanged. */
  function Dealias(t: string): (r: string)
    ensures r == t || r == "lua_Integer" || r == "lua_Number"
  {
    if t == "int" || t == "bool" then "lua_Integer"
    else if t == "double" then "lua_Number"
    else t
  }

  /** Dealias is the lookup in the alias table, falling back to the type itself. */
  lemma DealiasLooksUpTable(t: string)
    ensures Dealias(t) == if t in TypeAlias then TypeAlias[t] else t
  {
  }

  /** No alias target is itself aliased, so dealiasing twice changes nothing more. */
  lemma DealiasIdempotent(t: string)
    ensures Dealias(Dealias(t)) == Dealias(t)
  {
  }

  /** A type is rewritten exactly when the alias table has it. */
  lemma DealiasRewritesExactlyTableKeys(t: string)
    ensures Dealias(t) != t <==> t in TypeAlias
  {
  }

  // ---------------------------------------------------------------------------
  // Glue text
  // ---------------------------------------------------------------------------

  /** The C name of the glue function for a member of a class. */
  function GlueName(cls: string, member: string): string {
    "_" + cls + "_" + member
  }

  /** Two different (class, member) pairs can share a glue name when the names contain `_`. */
  lemma GlueNamesCanCollide()
    ensures GlueName("a_b", "c") == GlueName("a", "b_c")
  {
  }

  function Header(cls: string, member: string): string {
    "int " + GlueName(cls, member) + "(lua_State* L) {"
  }

  /** The local that holds the argument read from stack slot i. */
  function Var(i: nat): string {
    "p" + NatToString(i)
  }

  /** Declares `p<i>` of type declared and fills it with stack slot i fetched as type fetched. */
  function ReadLine(declared: string, fetched: string, i: nat): string {
    "  " + declared + " " + Var(i) + " = luaGet<" + fetched + ">(L, " + NatToString(i) + ");"
  }

  /** The constructor's parameter lines, the first parameter read from slot first. */
  function CtorReads(params: seq<string>, first: nat): (r: seq<string>)
    ensures |r| == |params|
    ensures forall k :: 0 <= k < |params| ==> r[k] == ReadLine(params[k], Dealias(params[k]), first + k)
  {
    if params == [] then []
    else CtorReads(params[..|params| - 1], first) + [ReadLine(params[|params| - 1], Dealias(params[|params| - 1]), first + |params| - 1)]
  }

  /** A method's parameter lines: unlike the constructor's, the local is declared with the dealiased type. */
  function MethodReads(params: seq<string>, first: nat): (r: seq<string>)
    ensures |r| == |params|
    ensures forall k :: 0 <= k < |params| ==> r[k] == ReadLine(Dealias(params[k]), Dealias(params[k]), first + k)
  {
    if params == [] then []
    else
      var last := Dealias(params[|params| - 1]);
      MethodReads(params[..|params| - 1], first) + [ReadLine(last, last, first + |params| - 1)]
  }

  /** `p<first>, ..., p<first+n-1>`, written the way the loop writes it: a separator before every argument but the first. */
  function ArgList(first: nat, n: nat): string {
    if n == 0 then ""
    else if n == 1 then Var(first)
    else ArgList(first, n - 1) + ", " + Var(first + n - 1)
  }

  /** The argument locals in order. */
  function Vars(first: nat, n: nat): (r: seq<string>)
    ensures |r| == n
    ensures forall k :: 0 <= k < n ==> r[k] == Var(first + k)
  {
    if n == 0 then [] else Vars(first, n - 1) + [Var(first + n - 1)]
  }

  /** The argument list passes exactly the locals the read lines declared, in declaration order. */
  lemma {:induction false} ArgListJoinsVars(first: nat, n: nat)
    ensures ArgList(first, n) == Join(Vars(first, n), ", ")
  {
    if n > 0 {
      ArgListJoinsVars(first, n - 1);
      JoinSnoc(Vars(first, n - 1), Var(first + n - 1), ", ");
    }
  }

  function NewLine(realName: string, n: nat): string {
    "  " + realName + " *r = new " + realName + "(" + ArgList(1, n) + ");"
  }

  /** What `onDefineCtor` writes. */
  /** The C function `onDefineCtor` writes for a class's constructor. */
  function CtorGlue(cls: string, realName: string, params: seq<string>): (r: seq<string>)
    ensures |r| == |params| + 6 && r[0] == Header(cls, "ctor") && r[|r| - 2..] == ["}", ""]
  {
    [Header(cls, "ctor")] + CtorReads(params, 1)
      + [NewLine(realName, |params|), "  luaPush<" + realName + "*>(L, r);", "  return 1;", "}", ""]
  }

  function DepthLine(n: nat): string {
    "  assert(lua_gettop(L) == " + NatToString(n) + ");"
  }

  function ReceiverLine(realName: string): string {
    "  " + realName + "* obj = luaGet<" + realName + "*>(L, 1);"
  }

  /** Stack slots the Lua caller supplies: the parameters, and the receiver unless the method is static. */
  function Depth(info: MethodDefinition): nat {
    |info.parameters| + (if info.isStatic then 0 else 1)
  }

  function CallLine(realName: string, info: MethodDefinition): string {
    var base := if info.isStatic then realName + "::" else "obj->";
    var call := base + info.name + "(" + ArgList(2, |info.parameters|) + ");";
    if info.returnType == "void" then "  " + call
    else "  " + Dealias(info.returnType) + " ret = " + call
  }

  function ReturnLine(returnType: string): string {
    if returnType == "void" then "  return 0;"
    else "  return luaPush<" + Dealias(returnType) + ">(L, ret);"
  }

  /** What `onDefineMethod` writes. */
  /** The C function `onDefineMethod` writes for a method; a static one gets no receiver line. */
  function MethodGlue(cls: string, realName: string, info: MethodDefinition): (r: seq<string>)
    ensures |r| == |info.parameters| + (if info.isStatic then 6 else 7)
    ensures r[0] == Header(cls, info.name) && r[|r| - 2..] == ["}", ""]
  {
    [Header(cls, info.name), DepthLine(Depth(info))]
      + (if info.isStatic then [] else [ReceiverLine(realName)])
      + MethodReads(info.parameters, 2)
      + [CallLine(realName, info), ReturnLine(info.returnType), "}", ""]
  }

  /** A constructor's glue reads its N parameters from stack slots 1..N, in declaration order. */
  lemma CtorGlueReadsSlotsInOrder(cls: string, realName: string, params: seq<string>)
    ensures var g := CtorGlue(cls, realName, params);
      && |g| == |params| + 6
      && g[0] == Header(cls, "ctor")
      && (forall k :: 0 <= k < |params| ==> g[1 + k] == ReadLine(params[k], Dealias(params[k]), k + 1))
  {
    var lines := CtorReads(params, 1);
    var g := CtorGlue(cls, realName, params);
    forall k | 0 <= k < |params|
      ensures g[1 + k] == lines[k]
    {
    }
  }

  /** It then passes the locals to `new` in that order, pushes the object and returns one value. */
  lemma CtorGlueConstructs(cls: string, realName: string, params: seq<string>)
    ensures var g := CtorGlue(cls, realName, params);
      && |g| == |params| + 6
      && g[|params| + 1] == "  " + realName + " *r = new " + realName + "(" + Join(Vars(1, |params|), ", ") + ");"
      && g[|params| + 2] == "  luaPush<" + realName + "*>(L, r);"
      && g[|params| + 3] == "  return 1;"
  {
    var tail := [NewLine(realName, |params|), "  luaPush<" + realName + "*>(L, r);", "  return 1;", "}", ""];
    var g := CtorGlue(cls, realName, params);
    assert g == ([Header(cls, "ctor")] + CtorReads(params, 1)) + tail;
    assert g[|params| + 1] == tail[0] && g[|params| + 2] == tail[1] && g[|params| + 3] == tail[2];
    ArgListJoinsVars(1, |params|);
  }

  /**
   * An instance method's glue checks for N + 1 stack slots and reads exactly
   * those: the receiver from slot 1 and parameter k from slot k + 2.
   */
  lemma InstanceGlueReadsItsDepth(cls: string, realName: string, info: MethodDefinition)
    requires !info.isStatic
    ensures var g := MethodGlue(cls, realName, info);
      var n := |info.parameters|;
      && |g| == n + 7
      && g[1] == DepthLine(n + 1)
      && g[2] == ReceiverLine(realName)
      && (forall k :: 0 <= k < n ==>
            g[3 + k] == ReadLine(Dealias(info.parameters[k]), Dealias(info.parameters[k]), k + 2) && k + 2 <= Depth(info))
  {
  }

  /**
   * A static method's glue checks for N stack slots but still reads its
   * parameters from slots 2..N + 1, so the last parameter is read from one
   * slot above the checked depth (and the first slot is never read).
   */
  lemma StaticGlueReadsAboveItsDepth(cls: string, realName: string, info: MethodDefinition)
    requires info.isStatic && |info.parameters| >= 1
    ensures var g := MethodGlue(cls, realName, info);
      var n := |info.parameters|;
      && g[1] == DepthLine(n)
      && g[1 + n] == ReadLine(Dealias(info.parameters[n - 1]), Dealias(info.parameters[n - 1]), n + 1)
      && n + 1 > Depth(info)
  {
  }

  /** A `void` method returns no value to Lua; any other returns one value of its dealiased return type. */
  lemma MethodGlueReturns(cls: string, realName: string, info: MethodDefinition)
    ensures var g := MethodGlue(cls, realName, info);
      && |g| >= 5
      && g[|g| - 3] == (if info.returnType == "void" then "  return 0;" else "  return luaPush<" + Dealias(info.returnType) + ">(L, ret);")
      && g[|g| - 2] == "}"
  {
  }

  // ---------------------------------------------------------------------------
  // The generator's state and its reaction to the parser's hooks
  // ---------------------------------------------------------------------------

  /** The generator's fields: current class, its real name, members registered per class, lines written. */
  datatype Emitter = Emitter(currentClass: string, realClassName: string, methods: map<string, seq<string>>, out: seq<string>)

  /** The members registered so far for a class (a class that never started has none). */
  function Registered(e: Emitter, cls: string): seq<string> {
    if cls in e.methods then e.methods[cls] else []
  }

  /** What a hook does to the generator. */
  function React(e: Emitter, ev: Event): (r: Emitter)
    ensures e.out <= r.out
  {
    match ev
    case OnStartClass(name) =>
      e.(currentClass := name, realClassName := name, methods := e.methods[name := []])
    case OnRealClassName(name) =>
      e.(realClassName := name)
    case OnDefineCtor(info) =>
      e.(methods := e.methods[e.currentClass := Registered(e, e.currentClass) + ["ctor"]],
         out := e.out + CtorGlue(e.currentClass, e.realClassName, info.parameters))
    case OnDefineMethod(info) =>
      e.(methods := e.methods[e.currentClass := Registered(e, e.currentClass) + [info.name]],
         out := e.out + MethodGlue(e.currentClass, e.realClassName, info))
    case OnClassEnd => e
  }

  /** The hooks called one after the other. */
  /** The hooks run in order; output is only ever appended to, so what an aborted run leaves is a prefix of what it would have written. */
  function EmitAll(e: Emitter, evs: seq<Event>): (r: Emitter)
    ensures e.out <= r.out
    decreases |evs|
  {
    if evs == [] then e else EmitAll(React(e, evs[0]), evs[1..])
  }

  lemma {:induction false} EmitAllAppend(e: Emitter, a: seq<Event>, b: seq<Event>)
    ensures EmitAll(e, a + b) == EmitAll(EmitAll(e, a), b)
    decreases |a|
  {
    if a == [] {
      assert a + b == b;
    } else {
      assert (a + b)[0] == a[0] && (a + b)[1..] == a[1..] + b;
      EmitAllAppend(React(e, a[0]), a[1..], b);
    }
  }

  /** Every registered member has its glue function defined in the output. */
  ghost predicate Defined(e: Emitter) {
    forall cls, m :: cls in e.methods && m in e.methods[cls] ==> Header(cls, m) in e.out
  }

  lemma ReactKeepsDefined(e: Emitter, ev: Event)
    requires Defined(e)
    ensures Defined(React(e, ev))
  {
    var r := React(e, ev);
    forall cls, m | cls in r.methods && m in r.methods[cls]
      ensures Header(cls, m) in r.out
    {
      if ev.OnDefineCtor? && cls == e.currentClass && m !in Registered(e, cls) {
        assert m == "ctor";
        assert r.out[|e.out|] == Header(cls, m);
      } else if ev.OnDefineMethod? && cls == e.currentClass && m !in Registered(e, cls) {
        assert m == ev.info.name;
        assert r.out[|e.out|] == Header(cls, m);
      } else if ev.OnStartClass? && cls == ev.name {
      } else {
        assert Header(cls, m) in e.out;
        assert e.out <= r.out;
      }
    }
  }

  lemma {:induction false} EmitAllKeepsDefined(e: Emitter, evs: seq<Event>)
    requires Defined(e)
    ensures Defined(EmitAll(e, evs))
    decreases |evs|
  {
    if evs != [] {
      ReactKeepsDefined(e, evs[0]);
      EmitAllKeepsDefined(React(e, evs[0]), evs[1..]);
    }
  }

  // ---------------------------------------------------------------------------
  // What a declaration leaves behind
  // ---------------------------------------------------------------------------

  /** The name a member is registered under: `ctor` for a constructor. */
  function MemberName(m: Member): string {
    if m.Ctor? then "ctor" else m.name
  }

  function MemberNames(ms: seq<Member>): (r: seq<string>)
    ensures |r| == |ms|
    ensures forall k :: 0 <= k < |ms| ==> r[k] == MemberName(ms[k])
  {
    if ms == [] then [] else [MemberName(ms[0])] + MemberNames(ms[1..])
  }

  /** The glue function written for one member of class cls, constructing or calling through realName. */
  function MemberGlue(cls: string, realName: string, m: Member): (r: seq<string>)
    ensures |r| > 0 && r[0] == Header(cls, MemberName(m))
  {
    if m.Ctor? then CtorGlue(cls, realName, ParamTexts(m.params))
    else MethodGlue(cls, realName, Definition(m))
  }

  /** The glue functions of the members, in declaration order. */
  function MembersGlue(cls: string, realName: string, ms: seq<Member>): seq<string> {
    if ms == [] then [] else MemberGlue(cls, realName, ms[0]) + MembersGlue(cls, realName, ms[1..])
  }

  /** The class the glue constructs and calls: the `[ Name ]` of the header, or else the class name. */
  function RealNameOf(c: ClassDecl): string {
    match c.realName
    case Some(r) => r
    case None => c.name
  }

  /** The member lists after the given declarations, one after the other: each declaration replaces its class's list. */
  function ClassMap(methods: map<string, seq<string>>, cs: seq<ClassDecl>): map<string, seq<string>>
    decreases |cs|
  {
    if cs == [] then methods else ClassMap(methods[cs[0].name := MemberNames(cs[0].members)], cs[1..])
  }

  /** The glue of the given declarations, class after class. */
  function FileGlue(cs: seq<ClassDecl>): seq<string> {
    if cs == [] then [] else MembersGlue(cs[0].name, RealNameOf(cs[0]), cs[0].members) + FileGlue(cs[1..])
  }

  /** Proof helper: updating a key with its own value leaves the map as it was. */
  lemma UpdateSame<K, V>(m: map<K, V>, k: K)
    requires k in m
    ensures m[k := m[k]] == m
  {
  }

  /** Proof helper: sequence concatenation regrouped, kept out of the larger proofs' contexts. */
  lemma Regroup(a: seq<string>, b: seq<string>, c: seq<string>)
    ensures (a + b) + c == a + (b + c)
  {
  }

  /** Proof helper: appending to a class's list twice is appending both parts at once. */
  lemma AppendTwice(m: map<string, seq<string>>, k: string, a: seq<string>, b: seq<string>)
    requires k in m
    ensures m[k := m[k] + a][k := (m[k] + a) + b] == m[k := m[k] + (a + b)]
  {
    Regroup(m[k], a, b);
  }

  /** Proof helper: a second update of the same key overrides the first. */
  lemma UpdateTwice<K, V>(m: map<K, V>, k: K, a: V, b: V)
    ensures m[k := a][k := b] == m[k := b]
  {
  }

  /** The hook of one member registers it after the current class's members and writes its glue. */
  lemma MemberEmitted(e: Emitter, m: Member)
    requires e.currentClass in e.methods
    ensures React(e, Flush(Definition(m)))
         == e.(methods := e.methods[e.currentClass := e.methods[e.currentClass] + [MemberName(m)]],
               out := e.out + MemberGlue(e.currentClass, e.realClassName, m))
  {
  }

  /** The member hooks of a class register the members after those already there and write their glue in order. */
  lemma {:induction false} MembersEmitted(e: Emitter, ms: seq<Member>)
    requires e.currentClass in e.methods
    ensures EmitAll(e, MembersEvents(ms))
         == e.(methods := e.methods[e.currentClass := e.methods[e.currentClass] + MemberNames(ms)],
               out := e.out + MembersGlue(e.currentClass, e.realClassName, ms))
    decreases |ms|
  {
    var cls := e.currentClass;
    if ms == [] {
      assert e.methods[cls] + [] == e.methods[cls];
      UpdateSame(e.methods, cls);
    } else {
      var ev := Flush(Definition(ms[0]));
      var e1 := e.(methods := e.methods[cls := e.methods[cls] + [MemberName(ms[0])]],
                   out := e.out + MemberGlue(cls, e.realClassName, ms[0]));
      assert EmitAll(e, MembersEvents(ms)) == EmitAll(e1, MembersEvents(ms[1..])) by {
        assert MembersEvents(ms)[0] == ev && MembersEvents(ms)[1..] == MembersEvents(ms[1..]);
        MemberEmitted(e, ms[0]);
      }
      MembersEmitted(e1, ms[1..]);
      assert e1.methods[cls := e1.methods[cls] + MemberNames(ms[1..])] == e.methods[cls := e.methods[cls] + MemberNames(ms)] by {
        assert MemberNames(ms) == [MemberName(ms[0])] + MemberNames(ms[1..]);
        AppendTwice(e.methods, cls, [MemberName(ms[0])], MemberNames(ms[1..]));
      }
      assert e1.out + MembersGlue(cls, e.realClassName, ms[1..]) == e.out + MembersGlue(cls, e.realClassName, ms) by {
        Regroup(e.out, MemberGlue(cls, e.realClassName, ms[0]), MembersGlue(cls, e.realClassName, ms[1..]));
      }
    }
  }

  /**
   * A declared class makes itself the current class under its real name,
   * replaces any earlier member list of that name by its own members in order,
   * and writes one glue function per member, in declaration order.
   */
  lemma ClassEmitted(e: Emitter, c: ClassDecl)
    ensures EmitAll(e, ClassEvents(c))
         == Emitter(c.name, RealNameOf(c), e.methods[c.name := MemberNames(c.members)],
                    e.out + MembersGlue(c.name, RealNameOf(c), c.members))
  {
    var start := [OnStartClass(c.name)];
    var named := start + RealNameEvents(c.realName);
    var declared := named + MembersEvents(c.members);
    var e1 := React(e, OnStartClass(c.name));
    var e2 := e1.(realClassName := RealNameOf(c));
    var e3 := e2.(methods := e.methods[c.name := MemberNames(c.members)],
                  out := e.out + MembersGlue(c.name, RealNameOf(c), c.members));
    assert EmitAll(e, start) == e1;
    assert EmitAll(e, named) == e2 by {
      EmitAllAppend(e, start, RealNameEvents(c.realName));
      if c.realName.Some? {
        assert EmitAll(e1, RealNameEvents(c.realName)) == EmitAll(React(e1, OnRealClassName(c.realName.value)), []);
      }
    }
    assert EmitAll(e, declared) == e3 by {
      EmitAllAppend(e, named, MembersEvents(c.members));
      MembersEmitted(e2, c.members);
      assert [] + MemberNames(c.members) == MemberNames(c.members);
      UpdateTwice(e.methods, c.name, [], MemberNames(c.members));
    }
    assert EmitAll(e, ClassEvents(c)) == e3 by {
      assert ClassEvents(c) == declared + [OnClassEnd];
      EmitAllAppend(e, declared, [OnClassEnd]);
      assert EmitAll(e3, [OnClassEnd]) == e3;
    }
  }

  /** Declarations one after the other: the glue of each class in turn, and the member lists of `ClassMap`. */
  lemma {:induction false} FileEmitted(e: Emitter, cs: seq<ClassDecl>)
    ensures EmitAll(e, FileEvents(cs)).out == e.out + FileGlue(cs)
    ensures EmitAll(e, FileEvents(cs)).methods == ClassMap(e.methods, cs)
    decreases |cs|
  {
    if cs != [] {
      var c := cs[0];
      var e1 := EmitAll(e, ClassEvents(c));
      assert EmitAll(e, FileEvents(cs)) == EmitAll(e1, FileEvents(cs[1..])) by {
        EmitAllAppend(e, ClassEvents(c), FileEvents(cs[1..]));
      }
      assert e1.out == e.out + MembersGlue(c.name, RealNameOf(c), c.members)
          && e1.methods == e.methods[c.name := MemberNames(c.members)] by {
        ClassEmitted(e, c);
      }
      FileEmitted(e1, cs[1..]);
      Regroup(e.out, MembersGlue(c.name, RealNameOf(c), c.members), FileGlue(cs[1..]));
    }
  }

  /** A class's member list is the one of its last declaration. */
  lemma {:induction false} LastDeclarationWins(methods: map<string, seq<string>>, cs: seq<ClassDecl>, i: nat)
    requires i < |cs|
    requires forall j :: i < j < |cs| ==> cs[j].name != cs[i].name
    ensures cs[i].name in ClassMap(methods, cs)
    ensures ClassMap(methods, cs)[cs[i].name] == MemberNames(cs[i].members)
    decreases |cs|
  {
    if i == 0 {
      UndeclaredUntouched(methods[cs[0].name := MemberNames(cs[0].members)], cs[1..], cs[0].name);
    } else {
      LastDeclarationWins(methods[cs[0].name := MemberNames(cs[0].members)], cs[1..], i - 1);
    }
  }

  /** A class no declaration names keeps the member list it had. */
  lemma {:induction false} UndeclaredUntouched(methods: map<string, seq<string>>, cs: seq<ClassDecl>, cls: string)
    requires forall j :: 0 <= j < |cs| ==> cs[j].name != cls
    ensures cls in ClassMap(methods, cs) <==> cls in methods
    ensures cls in methods ==> ClassMap(methods, cs)[cls] == methods[cls]
    decreases |cs|
  {
    if cs != [] {
      UndeclaredUntouched(methods[cs[0].name := MemberNames(cs[0].members)], cs[1..], cls);
    }
  }

  // ---------------------------------------------------------------------------
  // Registration
  // ---------------------------------------------------------------------------

  function BaseLine(cls: string): string {
    "  interpreter.registerBase(\"" + cls + "\");"
  }

  function MethodLine(cls: string, member: string): string {
    "  interpreter.registerMethod(\"" + cls + "\", \"" + member + "\", &" + GlueName(cls, member) + ");"
  }

  /** One registerMethod line per member, in registration order. */
  function MethodLines(cls: string, members: seq<string>): (r: seq<string>)
    ensures |r| == |members|
    ensures forall k :: 0 <= k < |members| ==> r[k] == MethodLine(cls, members[k])
  {
    if members == [] then [] else MethodLines(cls, members[..|members| - 1]) + [MethodLine(cls, members[|members| - 1])]
  }

  /** The block written for one class: its base registration, its members, a blank line. */
  function ClassBlock(cls: string, members: seq<string>): seq<string> {
    [BaseLine(cls)] + MethodLines(cls, members) + [""]
  }

  /** The blocks for the given classes, in the given order. */
  function ClassBlocks(classes: seq<string>, methods: map<string, seq<string>>): seq<string>
    requires forall k :: 0 <= k < |classes| ==> classes[k] in methods
  {
    if classes == [] then []
    else ClassBlocks(classes[..|classes| - 1], methods) + ClassBlock(classes[|classes| - 1], methods[classes[|classes| - 1]])
  }

  /** What `registerWrappings` writes: the classes visited in the map's key order. */
  /** The function `registerWrappings` writes: one block per class, in key order, inside `registerLuaWrappings`. */
  ghost function RegistrationLines(methods: map<string, seq<string>>): (r: seq<string>)
    ensures |r| >= 3 && r[0] == "void registerLuaWrappings() {" && r[|r| - 2..] == ["}", ""]
  {
    ["void registerLuaWrappings() {"] + ClassBlocks(SortedKeys(methods.Keys), methods) + ["}", ""]
  }

  /** Every registered member gets a registerMethod line, inside its class's block. */
  lemma {:induction false} ClassBlocksRegisterAll(classes: seq<string>, methods: map<string, seq<string>>, i: nat, m: string)
    requires forall k :: 0 <= k < |classes| ==> classes[k] in methods
    requires i < |classes| && m in methods[classes[i]]
    ensures MethodLine(classes[i], m) in ClassBlocks(classes, methods)
    decreases |classes|
  {
    var last := classes[|classes| - 1];
    if i == |classes| - 1 {
      var k :| 0 <= k < |methods[last]| && methods[last][k] == m;
      assert ClassBlock(last, methods[last])[1 + k] == MethodLine(last, m);
    } else {
      ClassBlocksRegisterAll(classes[..|classes| - 1], methods, i, m);
    }
  }

  /** Every member in the map is registered, under the glue name the glue was defined with. */
  lemma RegistrationCoversMethods(methods: map<string, seq<string>>, cls: string, m: string)
    requires cls in methods && m in methods[cls]
    ensures MethodLine(cls, m) in RegistrationLines(methods)
  {
    var keys := SortedKeys(methods.Keys);
    var i :| 0 <= i < |keys| && keys[i] == cls;
    ClassBlocksRegisterAll(keys, methods, i, m);
  }

  /** Every member of a class's last declaration gets a registerMethod line, whatever was written before the registration. */
  lemma DeclarationRegistered(methods: map<string, seq<string>>, cs: seq<ClassDecl>, i: nat, k: nat, front: seq<string>)
    requires i < |cs| && k < |cs[i].members|
    requires forall j :: i < j < |cs| ==> cs[j].name != cs[i].name
    ensures MethodLine(cs[i].name, MemberName(cs[i].members[k])) in front + RegistrationLines(ClassMap(methods, cs))
  {
    var cls, m := cs[i].name, MemberName(cs[i].members[k]);
    var registration := RegistrationLines(ClassMap(methods, cs));
    LastDeclarationWins(methods, cs, i);
    assert ClassMap(methods, cs)[cls][k] == m;
    RegistrationCoversMethods(ClassMap(methods, cs), cls, m);
    var j :| 0 <= j < |registration| && registration[j] == MethodLine(cls, m);
    assert (front + registration)[|front| + j] == MethodLine(cls, m);
  }

  /** In a finished run, each registered entry point is a function the output defines. */
  lemma RegisteredGlueIsDefined(e: Emitter, cls: string, m: string)
    requires Defined(e) && cls in e.methods && m in e.methods[cls]
    ensures MethodLine(cls, m) in RegistrationLines(e.methods)
    ensures Header(cls, m) in e.out
  {
    RegistrationCoversMethods(e.methods, cls, m);
  }
}
