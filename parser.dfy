/**
 * The parser of runtime/wrapc.cc as a transition function. Its state is the
 * parse function the C++ object currently points `parseToken` at; the method
 * accumulator is `currentMethod`; what a transition hands to the overridable
 * hooks is returned as events. A failed `assert` is the outcome Abort.
 */
module Parsing {
  import opened Optional

  /** The parse function `parseToken` points at. */
  datatype State =
    | Initial
    | ClassName
    | ClassStart
    | RealClassName
    | RealClassNameEnd
    | MethodReturnType
    | MethodName
    | ParameterListBegin
    | Parameter
    | CommaOrParameterListEnd

  /** The signature being accumulated. */
  datatype MethodDefinition = MethodDefinition(
    returnType: string,
    name: string,
    parameters: seq<string>,
    isStatic: bool,
    isCtor: bool)

  /** The accumulator after `MethodDefinition::clear`. */
  const Cleared := MethodDefinition("", "", [], false, false)

  /** A call of one of the parser's hooks, with its argument. */
  datatype Event =
    | OnStartClass(name: string)
    | OnRealClassName(name: string)
    | OnDefineMethod(info: MethodDefinition)
    | OnDefineCtor(info: MethodDefinition)
    | OnClassEnd

  datatype Config = Config(state: State, current: MethodDefinition)

  /** Between a parameter and the next comma or `)`, there is a parameter to decorate. */
  predicate Consistent(c: Config) {
    c.state == CommaOrParameterListEnd ==> c.current.parameters != []
  }

  /** The result of feeding one token: the assertion failed, or the next configuration and the hooks called. */
  datatype Outcome = Abort | Next(config: Config, events: seq<Event>)

  /** The decorations `&` and `*` that attach to the parameter or return type before them. */
  predicate IsSpecial(token: string)
    ensures IsSpecial(token) ==> |token| == 1
  {
    token == "&" || token == "*"
  }

  /** The hook a completed signature goes to: a constructor's or a method's. */
  function Flush(m: MethodDefinition): (r: Event)
    ensures (r.OnDefineCtor? || r.OnDefineMethod?) && r.info == m
    ensures r.OnDefineCtor? <==> m.isCtor
  {
    if m.isCtor then OnDefineCtor(m) else OnDefineMethod(m)
  }

  /** The three places where the parser asserts which token must come. */
  predicate Rejects(s: State, token: string)
    ensures Rejects(s, token) ==> s == Initial || s == RealClassNameEnd || s == ParameterListBegin
  {
    || (s == Initial && token != "class")
    || (s == RealClassNameEnd && token != "]")
    || (s == ParameterListBegin && token != "(")
  }

  /** One call of `(p.*p.parseToken)(token)`. */
  function Step(c: Config, token: string): (o: Outcome)
    requires Consistent(c)
    ensures o.Abort? <==> Rejects(c.state, token)
    ensures o.Next? ==> Consistent(o.config) && |o.events| <= 1
  {
    var m := c.current;
    match c.state
    case Initial =>
      if token == "class" then Next(Config(ClassName, m), []) else Abort
    case ClassName =>
      Next(Config(ClassStart, m), [OnStartClass(token)])
    case RealClassName =>
      Next(Config(RealClassNameEnd, m), [OnRealClassName(token)])
    case RealClassNameEnd =>
      if token == "]" then Next(Config(ClassStart, m), []) else Abort
    case ClassStart =>
      if token == "{" then Next(Config(MethodReturnType, Cleared), [])
      else if token == "[" then Next(Config(RealClassName, m), [])
      else Next(c, [])
    case MethodReturnType =>
      if token == "}" then Next(Config(Initial, m), [OnClassEnd])
      else if token == "static" then Next(Config(MethodReturnType, m.(isStatic := true)), [])
      else if token == "ctor" then Next(Config(ParameterListBegin, m.(isCtor := true)), [])
      else Next(Config(MethodName, m.(returnType := token)), [])
    case MethodName =>
      if IsSpecial(token) then Next(Config(MethodName, m.(returnType := m.returnType + token)), [])
      else Next(Config(ParameterListBegin, m.(name := token)), [])
    case ParameterListBegin =>
      if token == "(" then Next(Config(Parameter, m), []) else Abort
    case Parameter =>
      if token == ")" then Next(Config(MethodReturnType, Cleared), [Flush(m)])
      else Next(Config(CommaOrParameterListEnd, m.(parameters := m.parameters + [token])), [])
    case CommaOrParameterListEnd =>
      if token == "," then Next(Config(Parameter, m), [])
      else if token == ")" then Next(Config(MethodReturnType, Cleared), [Flush(m)])
      else
        var ps := m.parameters;
        Next(Config(CommaOrParameterListEnd, m.(parameters := ps[..|ps| - 1] + [ps[|ps| - 1] + " " + token])), [])
  }

  /** What feeding a token sequence does: the hooks called in order, and the final configuration, None once an assertion failed. */
  datatype Trace = Trace(events: seq<Event>, final: Option<Config>)

  function Run(c: Config, tokens: seq<string>): (t: Trace)
    requires Consistent(c)
    ensures t.final.Some? ==> Consistent(t.final.value)
    decreases |tokens|
  {
    if tokens == [] then Trace([], Some(c))
    else
      match Step(c, tokens[0])
      case Abort => Trace([], None)
      case Next(c', evs) =>
        var t := Run(c', tokens[1..]);
        Trace(evs + t.events, t.final)
  }

  /** Feeding more tokens after a trace: nothing happens after an abort. */
  function Then(t: Trace, tokens: seq<string>): Trace
    requires t.final.Some? ==> Consistent(t.final.value)
  {
    if t.final.None? then t
    else
      var u := Run(t.final.value, tokens);
      Trace(t.events + u.events, u.final)
  }

  /** Feeding one token and then the rest. */
  lemma RunCons(c: Config, t: string, rest: seq<string>)
    requires Consistent(c)
    ensures Step(c, t).Abort? ==> Run(c, [t] + rest) == Trace([], None)
    ensures Step(c, t).Next? ==>
              var u := Run(Step(c, t).config, rest);
              Run(c, [t] + rest) == Trace(Step(c, t).events + u.events, u.final)
  {
    assert ([t] + rest)[0] == t && ([t] + rest)[1..] == rest;
  }

  /** A single token that the parser accepts. */
  lemma RunOne(c: Config, t: string)
    requires Consistent(c) && Step(c, t).Next?
    ensures Run(c, [t]) == Trace(Step(c, t).events, Some(Step(c, t).config))
  {
    RunCons(c, t, []);
    assert Step(c, t).events + [] == Step(c, t).events;
  }

  /** Feeding a + b is feeding a, then b from where a left off. */
  lemma {:induction false} RunAppend(c: Config, a: seq<string>, b: seq<string>)
    requires Consistent(c)
    ensures Run(c, a + b) == Then(Run(c, a), b)
    decreases |a|
  {
    if a == [] {
      assert a + b == b;
      assert Run(c, b).events == [] + Run(c, b).events;
    } else {
      assert a + b == [a[0]] + (a[1..] + b);
      assert a == [a[0]] + a[1..];
      RunCons(c, a[0], a[1..] + b);
      RunCons(c, a[0], a[1..]);
      var o := Step(c, a[0]);
      if o.Next? {
        RunAppend(o.config, a[1..], b);
        var t := Run(o.config, a[1..]);
        if t.final.Some? {
          var u := Run(t.final.value, b);
          assert o.events + (t.events + u.events) == (o.events + t.events) + u.events;
        }
      }
    }
  }

  /** Input that does not start with `class` fails at once, having called no hook. */
  lemma MalformedStartAborts(m: MethodDefinition, t: string, rest: seq<string>)
    requires t != "class"
    ensures Run(Config(Initial, m), [t] + rest) == Trace([], None)
  {
    RunCons(Config(Initial, m), t, rest);
  }

  // ---------------------------------------------------------------------------
  // The interface-description grammar, and what the parser makes of it.
  // ---------------------------------------------------------------------------

  /** A parameter as written: its type token and the tokens after it that the parser merges into it. */
  datatype Param = Param(base: string, modifiers: seq<string>)

  datatype Member =
    | Ctor(params: seq<Param>)
    | Method(isStatic: bool, returnType: string, decorations: seq<string>, name: string, params: seq<Param>)

  datatype ClassDecl = ClassDecl(name: string, realName: Option<string>, members: seq<Member>)

  function Concat(ts: seq<string>): string {
    if ts == [] then "" else ts[0] + Concat(ts[1..])
  }

  /** Each modifier token appended after a space. */
  function Suffix(ts: seq<string>): string {
    if ts == [] then "" else " " + ts[0] + Suffix(ts[1..])
  }

  function ParamHead(p: Param): seq<string> {
    [p.base] + p.modifiers
  }

  /** A parameter list after its `(`, through the closing `)`. */
  function ArgumentTokens(ps: seq<Param>): seq<string> {
    if ps == [] then [")"]
    else ParamHead(ps[0]) + (if |ps| == 1 then [")"] else [","] + ArgumentTokens(ps[1..]))
  }

  /** The parameter type string a declaration leaves in the accumulator. */
  function ParamText(p: Param): string {
    p.base + Suffix(p.modifiers)
  }

  function ParamTexts(ps: seq<Param>): (r: seq<string>)
    ensures |r| == |ps|
  {
    if ps == [] then [] else [ParamText(ps[0])] + ParamTexts(ps[1..])
  }

  function MemberTokens(m: Member): seq<string> {
    match m
    case Ctor(ps) => ["ctor"] + (["("] + ArgumentTokens(ps))
    case Method(st, rt, decs, name, ps) =>
      (if st then ["static"] else []) + ([rt] + (decs + ([name] + (["("] + ArgumentTokens(ps)))))
  }

  function MembersTokens(ms: seq<Member>): seq<string> {
    if ms == [] then [] else MemberTokens(ms[0]) + MembersTokens(ms[1..])
  }

  /** The optional `[ RealName ]` part of a class header. */
  function RealNameTokens(realName: Option<string>): seq<string> {
    match realName
    case Some(r) => ["[", r, "]"]
    case None => []
  }

  function ClassTokens(c: ClassDecl): seq<string> {
    ["class", c.name] + RealNameTokens(c.realName) + ["{"] + MembersTokens(c.members) + ["}"]
  }

  function FileTokens(cs: seq<ClassDecl>): seq<string> {
    if cs == [] then [] else ClassTokens(cs[0]) + FileTokens(cs[1..])
  }

  /** Tokens the grammar allows where they stand: none of them is taken for punctuation the parser reacts to. */
  predicate WellFormedParam(p: Param) {
    && p.base != ")"
    && forall i :: 0 <= i < |p.modifiers| ==> p.modifiers[i] != "," && p.modifiers[i] != ")"
  }

  predicate WellFormedMember(m: Member) {
    && (forall i :: 0 <= i < |m.params| ==> WellFormedParam(m.params[i]))
    && (m.Method? ==>
          && m.returnType != "}" && m.returnType != "static" && m.returnType != "ctor"
          && (forall i :: 0 <= i < |m.decorations| ==> IsSpecial(m.decorations[i]))
          && !IsSpecial(m.name))
  }

  predicate WellFormedClass(c: ClassDecl) {
    forall i :: 0 <= i < |c.members| ==> WellFormedMember(c.members[i])
  }

  /** The signature the parser hands to the hook for a member. */
  function Definition(m: Member): MethodDefinition {
    match m
    case Ctor(ps) => MethodDefinition("", "", ParamTexts(ps), false, true)
    case Method(st, rt, decs, name, ps) => MethodDefinition(rt + Concat(decs), name, ParamTexts(ps), st, false)
  }

  function MembersEvents(ms: seq<Member>): seq<Event> {
    if ms == [] then [] else [Flush(Definition(ms[0]))] + MembersEvents(ms[1..])
  }

  function RealNameEvents(realName: Option<string>): seq<Event> {
    match realName
    case Some(r) => [OnRealClassName(r)]
    case None => []
  }

  function ClassEvents(c: ClassDecl): seq<Event> {
    [OnStartClass(c.name)] + RealNameEvents(c.realName) + MembersEvents(c.members) + [OnClassEnd]
  }

  function FileEvents(cs: seq<ClassDecl>): seq<Event> {
    if cs == [] then [] else ClassEvents(cs[0]) + FileEvents(cs[1..])
  }

  /** Modifier tokens after a parameter are merged into it, each after a space. */
  lemma {:induction false} ModifiersMerged(m: MethodDefinition, front: seq<string>, x: string, mods: seq<string>)
    requires forall i :: 0 <= i < |mods| ==> mods[i] != "," && mods[i] != ")"
    ensures Run(Config(CommaOrParameterListEnd, m.(parameters := front + [x])), mods)
         == Trace([], Some(Config(CommaOrParameterListEnd, m.(parameters := front + [x + Suffix(mods)]))))
    decreases |mods|
  {
    var c := Config(CommaOrParameterListEnd, m.(parameters := front + [x]));
    if mods == [] {
      assert x + Suffix(mods) == x;
    } else {
      var ps := front + [x];
      assert ps[..|ps| - 1] == front;
      var x' := x + " " + mods[0];
      assert Step(c, mods[0]) == Next(Config(CommaOrParameterListEnd, m.(parameters := front + [x'])), []);
      assert mods == [mods[0]] + mods[1..];
      RunCons(c, mods[0], mods[1..]);
      ModifiersMerged(m, front, x', mods[1..]);
      assert x' + Suffix(mods[1..]) == x + Suffix(mods);
    }
  }

  /** A parameter and its modifiers leave one entry, its text, in the accumulator. */
  lemma ParameterRead(m: MethodDefinition, p: Param)
    requires WellFormedParam(p)
    ensures Run(Config(Parameter, m), [p.base] + p.modifiers)
         == Trace([], Some(Config(CommaOrParameterListEnd, m.(parameters := m.parameters + [ParamText(p)]))))
  {
    var m1 := m.(parameters := m.parameters + [p.base]);
    assert Step(Config(Parameter, m), p.base) == Next(Config(CommaOrParameterListEnd, m1), []);
    RunCons(Config(Parameter, m), p.base, p.modifiers);
    assert m1 == m.(parameters := m.parameters + [p.base]);
    ModifiersMerged(m, m.parameters, p.base, p.modifiers);
  }

  /** The last parameter and `)`: the flush, with the accumulator cleared after it. */
  lemma LastParameterParsed(m: MethodDefinition, p: Param)
    requires WellFormedParam(p)
    ensures Run(Config(Parameter, m), ParamHead(p) + [")"])
         == Trace([Flush(m.(parameters := m.parameters + [ParamText(p)]))], Some(Config(MethodReturnType, Cleared)))
  {
    var c2 := Config(CommaOrParameterListEnd, m.(parameters := m.parameters + [ParamText(p)]));
    assert Run(Config(Parameter, m), ParamHead(p)) == Trace([], Some(c2)) by {
      ParameterRead(m, p);
    }
    assert Run(c2, [")"]) == Trace([Flush(c2.current)], Some(Config(MethodReturnType, Cleared))) by {
      RunOne(c2, ")");
    }
    RunAppend(Config(Parameter, m), ParamHead(p), [")"]);
    assert [] + [Flush(c2.current)] == [Flush(c2.current)];
  }

  /** A parameter followed by a comma: the accumulator holds its text and the parser waits for the next one. */
  lemma ParameterThenComma(m: MethodDefinition, p: Param, rest: seq<string>)
    requires WellFormedParam(p)
    ensures Run(Config(Parameter, m), ParamHead(p) + ([","] + rest))
         == Run(Config(Parameter, m.(parameters := m.parameters + [ParamText(p)])), rest)
  {
    var m2 := m.(parameters := m.parameters + [ParamText(p)]);
    var c2 := Config(CommaOrParameterListEnd, m2);
    ParameterRead(m, p);
    RunAppend(Config(Parameter, m), ParamHead(p), [","] + rest);
    RunCons(c2, ",", rest);
    assert [] + Run(Config(Parameter, m2), rest).events == Run(Config(Parameter, m2), rest).events;
  }

  /** The flush a parameter list ends in. */
  function Flushed(m: MethodDefinition, ps: seq<Param>): Trace {
    Trace([Flush(m.(parameters := m.parameters + ParamTexts(ps)))], Some(Config(MethodReturnType, Cleared)))
  }

  lemma ArgumentTokensOfMany(ps: seq<Param>)
    requires |ps| >= 2
    ensures ArgumentTokens(ps) == ParamHead(ps[0]) + ([","] + ArgumentTokens(ps[1..]))
  {
  }

  lemma FlushedPrepended(m: MethodDefinition, ps: seq<Param>)
    requires ps != []
    ensures Flushed(m.(parameters := m.parameters + [ParamText(ps[0])]), ps[1..]) == Flushed(m, ps)
  {
    assert (m.parameters + [ParamText(ps[0])]) + ParamTexts(ps[1..]) == m.parameters + ParamTexts(ps);
  }

  /** One more parameter in front of a list that parses: the list with it parses too. */
  lemma ParameterPrepended(m: MethodDefinition, ps: seq<Param>)
    requires |ps| >= 2 && WellFormedParam(ps[0])
    requires Run(Config(Parameter, m.(parameters := m.parameters + [ParamText(ps[0])])), ArgumentTokens(ps[1..]))
          == Flushed(m.(parameters := m.parameters + [ParamText(ps[0])]), ps[1..])
    ensures Run(Config(Parameter, m), ArgumentTokens(ps)) == Flushed(m, ps)
  {
    ArgumentTokensOfMany(ps);
    ParameterThenComma(m, ps[0], ArgumentTokens(ps[1..]));
    FlushedPrepended(m, ps);
  }

  /** A parameter list and its closing `)` fire the one flush with every parameter text appended, and clear the accumulator. */
  lemma {:induction false} ParametersParsed(m: MethodDefinition, ps: seq<Param>)
    requires forall i :: 0 <= i < |ps| ==> WellFormedParam(ps[i])
    ensures Run(Config(Parameter, m), ArgumentTokens(ps)) == Flushed(m, ps)
    decreases |ps|
  {
    if ps == [] {
      RunOne(Config(Parameter, m), ")");
      assert m.parameters + ParamTexts(ps) == m.parameters;
    } else if |ps| == 1 {
      assert ArgumentTokens(ps) == ParamHead(ps[0]) + [")"];
      LastParameterParsed(m, ps[0]);
      assert ParamTexts(ps) == [ParamText(ps[0])];
    } else {
      ParametersParsed(m.(parameters := m.parameters + [ParamText(ps[0])]), ps[1..]);
      ParameterPrepended(m, ps);
    }
  }

  /** From `(`, a complete parameter list ends in exactly one flush of the accumulator with the parameters added. */
  lemma ParameterListParsed(m: MethodDefinition, ps: seq<Param>)
    requires forall i :: 0 <= i < |ps| ==> WellFormedParam(ps[i])
    ensures Run(Config(ParameterListBegin, m), ["("] + ArgumentTokens(ps)) == Flushed(m, ps)
  {
    RunCons(Config(ParameterListBegin, m), "(", ArgumentTokens(ps));
    ParametersParsed(m, ps);
  }

  /** Return-type decorations `*` and `&` are appended to the return type without a space. */
  lemma {:induction false} DecorationsAppended(m: MethodDefinition, decs: seq<string>)
    requires forall i :: 0 <= i < |decs| ==> IsSpecial(decs[i])
    ensures Run(Config(MethodName, m), decs) == Trace([], Some(Config(MethodName, m.(returnType := m.returnType + Concat(decs)))))
    decreases |decs|
  {
    if decs == [] {
      assert m.returnType + Concat(decs) == m.returnType;
    } else {
      var m' := m.(returnType := m.returnType + decs[0]);
      var done := Some(Config(MethodName, m'.(returnType := m'.returnType + Concat(decs[1..]))));
      assert Run(Config(MethodName, m'), decs[1..]) == Trace([], done) by {
        DecorationsAppended(m', decs[1..]);
      }
      assert Run(Config(MethodName, m), [decs[0]] + decs[1..]) == Trace([], done) by {
        assert Step(Config(MethodName, m), decs[0]) == Next(Config(MethodName, m'), []);
        RunCons(Config(MethodName, m), decs[0], decs[1..]);
      }
      assert decs == [decs[0]] + decs[1..];
      assert m'.returnType + Concat(decs[1..]) == m.returnType + Concat(decs);
    }
  }

  /** A constructor declaration fires `onDefineCtor` with its parameters. */
  lemma CtorParsed(ps: seq<Param>)
    requires forall i :: 0 <= i < |ps| ==> WellFormedParam(ps[i])
    ensures Run(Config(MethodReturnType, Cleared), MemberTokens(Ctor(ps)))
         == Trace([OnDefineCtor(Definition(Ctor(ps)))], Some(Config(MethodReturnType, Cleared)))
  {
    var m := Cleared.(isCtor := true);
    RunCons(Config(MethodReturnType, Cleared), "ctor", ["("] + ArgumentTokens(ps));
    ParameterListParsed(m, ps);
    assert m.(parameters := m.parameters + ParamTexts(ps)) == Definition(Ctor(ps));
  }

  /** After the return type: decorations, the name and the parameter list. */
  lemma MethodNameParsed(m1: MethodDefinition, decs: seq<string>, name: string, ps: seq<Param>)
    requires forall i :: 0 <= i < |decs| ==> IsSpecial(decs[i])
    requires !IsSpecial(name)
    requires forall i :: 0 <= i < |ps| ==> WellFormedParam(ps[i])
    ensures Run(Config(MethodName, m1), decs + ([name] + (["("] + ArgumentTokens(ps))))
         == Trace([Flush(m1.(returnType := m1.returnType + Concat(decs), name := name, parameters := m1.parameters + ParamTexts(ps)))],
                  Some(Config(MethodReturnType, Cleared)))
  {
    var m2 := m1.(returnType := m1.returnType + Concat(decs));
    var m3 := m2.(name := name);
    var tail := ["("] + ArgumentTokens(ps);
    DecorationsAppended(m1, decs);
    RunAppend(Config(MethodName, m1), decs, [name] + tail);
    RunCons(Config(MethodName, m2), name, tail);
    ParameterListParsed(m3, ps);
  }

  /** From the return type on, a method declaration fires `onDefineMethod` with its signature. */
  lemma MethodTailParsed(m0: MethodDefinition, rt: string, decs: seq<string>, name: string, ps: seq<Param>)
    requires !m0.isCtor && m0.parameters == []
    requires rt != "}" && rt != "static" && rt != "ctor"
    requires forall i :: 0 <= i < |decs| ==> IsSpecial(decs[i])
    requires !IsSpecial(name)
    requires forall i :: 0 <= i < |ps| ==> WellFormedParam(ps[i])
    ensures Run(Config(MethodReturnType, m0), [rt] + (decs + ([name] + (["("] + ArgumentTokens(ps)))))
         == Trace([OnDefineMethod(MethodDefinition(rt + Concat(decs), name, ParamTexts(ps), m0.isStatic, false))],
                  Some(Config(MethodReturnType, Cleared)))
  {
    var m1 := m0.(returnType := rt);
    RunCons(Config(MethodReturnType, m0), rt, decs + ([name] + (["("] + ArgumentTokens(ps))));
    MethodNameParsed(m1, decs, name, ps);
    assert m1.parameters + ParamTexts(ps) == ParamTexts(ps);
  }

  /**
   * A well-formed constructor or method declaration, read from a cleared
   * accumulator, fires exactly one hook with its signature and leaves the
   * parser ready for the next member with the accumulator cleared again.
   */
  lemma MemberParsed(mem: Member)
    requires WellFormedMember(mem)
    ensures Run(Config(MethodReturnType, Cleared), MemberTokens(mem))
         == Trace([Flush(Definition(mem))], Some(Config(MethodReturnType, Cleared)))
  {
    match mem
    case Ctor(ps) =>
      CtorParsed(ps);
    case Method(st, rt, decs, name, ps) =>
      var rest := [rt] + (decs + ([name] + (["("] + ArgumentTokens(ps))));
      MethodTailParsed(Cleared.(isStatic := st), rt, decs, name, ps);
      if st {
        RunCons(Config(MethodReturnType, Cleared), "static", rest);
      } else {
        assert MemberTokens(mem) == rest;
      }
  }

  lemma {:induction false} MembersParsed(ms: seq<Member>)
    requires forall i :: 0 <= i < |ms| ==> WellFormedMember(ms[i])
    ensures Run(Config(MethodReturnType, Cleared), MembersTokens(ms))
         == Trace(MembersEvents(ms), Some(Config(MethodReturnType, Cleared)))
    decreases |ms|
  {
    if ms != [] {
      MemberParsed(ms[0]);
      MembersParsed(ms[1..]);
      RunAppend(Config(MethodReturnType, Cleared), MemberTokens(ms[0]), MembersTokens(ms[1..]));
    }
  }

  /** A class body in braces fires one hook per member and `onClassEnd`, and returns to the initial state. */
  lemma BracesParsed(m: MethodDefinition, members: seq<Member>)
    requires forall i :: 0 <= i < |members| ==> WellFormedMember(members[i])
    ensures Run(Config(ClassStart, m), ["{"] + MembersTokens(members) + ["}"])
         == Trace(MembersEvents(members) + [OnClassEnd], Some(Config(Initial, Cleared)))
  {
    var body := MembersTokens(members);
    MembersParsed(members);
    RunAppend(Config(MethodReturnType, Cleared), body, ["}"]);
    RunOne(Config(MethodReturnType, Cleared), "}");
    assert ["{"] + body + ["}"] == ["{"] + (body + ["}"]);
    RunCons(Config(ClassStart, m), "{", body + ["}"]);
  }

  /** `[ name ]` after the class name fires `onRealClassName` and returns to where it started. */
  lemma RealNameParsed(m: MethodDefinition, r: string, rest: seq<string>)
    ensures Run(Config(ClassStart, m), ["[", r, "]"] + rest)
         == var u := Run(Config(ClassStart, m), rest); Trace([OnRealClassName(r)] + u.events, u.final)
  {
    assert ["[", r, "]"] + rest == ["["] + ([r] + (["]"] + rest));
    RunCons(Config(ClassStart, m), "[", [r] + (["]"] + rest));
    RunCons(Config(RealClassName, m), r, ["]"] + rest);
    RunCons(Config(RealClassNameEnd, m), "]", rest);
  }

  /** After the class name: an optional real name in brackets, then the body. */
  lemma ClassBodyParsed(m: MethodDefinition, realName: Option<string>, members: seq<Member>)
    requires forall i :: 0 <= i < |members| ==> WellFormedMember(members[i])
    ensures Run(Config(ClassStart, m), RealNameTokens(realName) + ["{"] + MembersTokens(members) + ["}"])
         == Trace(RealNameEvents(realName) + MembersEvents(members) + [OnClassEnd], Some(Config(Initial, Cleared)))
  {
    var braces := ["{"] + MembersTokens(members) + ["}"];
    var events := MembersEvents(members) + [OnClassEnd];
    BracesParsed(m, members);
    assert RealNameTokens(realName) + ["{"] + MembersTokens(members) + ["}"] == RealNameTokens(realName) + braces;
    assert RealNameEvents(realName) + MembersEvents(members) + [OnClassEnd] == RealNameEvents(realName) + events;
    match realName
    case None =>
      assert [] + braces == braces;
      assert [] + events == events;
    case Some(r) =>
      RealNameParsed(m, r, braces);
  }

  /**
   * A well-formed class declaration fires `onStartClass`, `onRealClassName`
   * when a real name is given, one define hook per member in declaration
   * order, and `onClassEnd`; the parser is back in its initial state.
   */
  lemma ClassParsed(m: MethodDefinition, c: ClassDecl)
    requires WellFormedClass(c)
    ensures Run(Config(Initial, m), ClassTokens(c)) == Trace(ClassEvents(c), Some(Config(Initial, Cleared)))
  {
    var rest := RealNameTokens(c.realName) + ["{"] + MembersTokens(c.members) + ["}"];
    var events := RealNameEvents(c.realName) + MembersEvents(c.members) + [OnClassEnd];
    var done := Some(Config(Initial, Cleared));
    assert ClassTokens(c) == ["class"] + ([c.name] + rest);
    assert ClassEvents(c) == [OnStartClass(c.name)] + events;
    assert Run(Config(ClassStart, m), rest) == Trace(events, done) by {
      ClassBodyParsed(m, c.realName, c.members);
    }
    assert Run(Config(ClassName, m), [c.name] + rest) == Trace([OnStartClass(c.name)] + events, done) by {
      RunCons(Config(ClassName, m), c.name, rest);
    }
    assert Run(Config(Initial, m), ["class"] + ([c.name] + rest)) == Trace([OnStartClass(c.name)] + events, done) by {
      RunCons(Config(Initial, m), "class", [c.name] + rest);
      assert [] + ([OnStartClass(c.name)] + events) == [OnStartClass(c.name)] + events;
    }
  }

  /** A file of well-formed class declarations fires the classes' hooks one class after the other. */
  lemma {:induction false} FileParsed(cs: seq<ClassDecl>)
    requires forall i :: 0 <= i < |cs| ==> WellFormedClass(cs[i])
    ensures Run(Config(Initial, Cleared), FileTokens(cs)) == Trace(FileEvents(cs), Some(Config(Initial, Cleared)))
    decreases |cs|
  {
    if cs != [] {
      ClassParsed(Cleared, cs[0]);
      FileParsed(cs[1..]);
      RunAppend(Config(Initial, Cleared), ClassTokens(cs[0]), FileTokens(cs[1..]));
    }
  }
}
