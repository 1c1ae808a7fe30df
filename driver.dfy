/**
 * `main` of runtime/wrapc.cc: the fixed preamble, then the loop that hands
 * each token of the interface description to the parser, then the
 * registration function. The description file's contents are a parameter.
 */
module Wrapc {
  import opened Optional
  import opened Strings
  import opened Lexing
  import opened Parsing
  import opened LuaWrapper
  import opened Generator

  /** The lines `main` writes before parsing: the warning banner, the includes and the `using` declaration. */
  const Preamble: seq<string> := [
    "",
    "//",
    "// /!\\ WARNING: This is generated code. Changes to it will be lost.",
    "//",
    "",
    "#include <cassert>",
    "#include <string>",
    "#include <SDL/SDL.h>",
    "",
    "#include \"interpreter.h\"",
    "#include \"lib/actor.h\"",
    "#include \"lib/animation.h\"",
    "#include \"lib/area.h\"",
    "#include \"lib/classes.h\"",
    "#include \"lib/event.h\"",
    "#include \"lib/game.h\"",
    "#include \"lib/ground.h\"",
    "#include \"lib/image.h\"",
    "#include \"lib/mainloop.h\"",
    "#include \"lib/rect.h\"",
    "#include \"lib/resource_manager.h\"",
    "#include \"lib/scene.h\"",
    "#include \"lib/shortcuts.h\"",
    "#include \"lib/sprite.h\"",
    "#include \"lib/surface.h\"",
    "#include \"lib/unittest.h\"",
    "#include \"lib/user_interface.h\"",
    "#include \"lib/user_interface_element.h\"",
    "#include \"lib/utils.h\"",
    "#include \"lib/vector2d.h\"",
    "#include \"lib/viewport.h\"",
    "",
    "#include \"lua_game.h\"",
    "#include \"lua_user_interface.h\"",
    "#include \"lua_utils.h\"",
    "#include \"reference_counting_lua.h\"",
    "",
    "using std::string;",
    ""
  ]

  /** The generator's state once the preamble is written and before the first token. */
  const Start: Emitter := Emitter("", "", map[], Preamble)

  /** Where feeding tokens to parser and generator together ends: out of tokens, or at a failed assertion. */
  datatype Fed = Finished(config: Config, emitter: Emitter) | Stopped(emitter: Emitter)

  /** The token loop of `main`, one token at a time: each accepted token's hooks run before the next token is read. */
  function Feed(c: Config, e: Emitter, tokens: seq<string>): (r: Fed)
    requires Consistent(c)
    ensures e.out <= r.emitter.out
    decreases |tokens|
  {
    if tokens == [] then Finished(c, e)
    else
      match Step(c, tokens[0])
      case Abort => Stopped(e)
      case Next(c', evs) => Feed(c', EmitAll(e, evs), tokens[1..])
  }

  lemma FeedCons(c: Config, e: Emitter, t: string, rest: seq<string>)
    requires Consistent(c)
    ensures Step(c, t).Abort? ==> Feed(c, e, [t] + rest) == Stopped(e)
    ensures Step(c, t).Next? ==> Feed(c, e, [t] + rest) == Feed(Step(c, t).config, EmitAll(e, Step(c, t).events), rest)
  {
    assert ([t] + rest)[0] == t && ([t] + rest)[1..] == rest;
  }

  /**
   * Interleaving parsing and generation is the same as parsing everything
   * first and then replaying the hooks: the run ends where the parser's run
   * ends, and it stops exactly when the parser's run aborts.
   */
  lemma {:induction false} FeedFollowsRun(c: Config, e: Emitter, tokens: seq<string>)
    requires Consistent(c)
    ensures Run(c, tokens).final.Some? ==>
              Feed(c, e, tokens) == Finished(Run(c, tokens).final.value, EmitAll(e, Run(c, tokens).events))
    ensures Run(c, tokens).final.None? <==> Feed(c, e, tokens).Stopped?
    decreases |tokens|
  {
    if tokens != [] {
      assert tokens == [tokens[0]] + tokens[1..];
      RunCons(c, tokens[0], tokens[1..]);
      FeedCons(c, e, tokens[0], tokens[1..]);
      match Step(c, tokens[0])
      case Abort =>
      case Next(c', evs) =>
        FeedFollowsRun(c', EmitAll(e, evs), tokens[1..]);
        EmitAllAppend(e, evs, Run(c', tokens[1..]).events);
    }
  }

  /** What a run of the generator writes: everything, or what was written before a failed assertion ended it. */
  datatype Generated = Completed(lines: seq<string>) | Aborted(lines: seq<string>)

  /** The output of the generator on a description file with the given contents; whatever the input, it starts with the preamble. */
  ghost function Generate(input: string): (r: Generated)
    ensures Preamble <= r.lines
  {
    match Feed(Config(Initial, Cleared), Start, Tokens(input))
    case Finished(_, e) => Completed(e.out + RegistrationLines(e.methods))
    case Stopped(e) => Aborted(e.out)
  }

  /** A description whose first token is not `class` writes the preamble and nothing more. */
  lemma MalformedStartWritesPreambleOnly(input: string)
    requires |Tokens(input)| > 0 && Tokens(input)[0] != "class"
    ensures Generate(input) == Aborted(Preamble)
  {
    var ts := Tokens(input);
    assert ts == [ts[0]] + ts[1..];
    FeedCons(Config(Initial, Cleared), Start, ts[0], ts[1..]);
  }

  /** A description without tokens gives the preamble and an empty registration function. */
  lemma EmptyDescription(input: string)
    requires Tokens(input) == []
    ensures Generate(input) == Completed(Preamble + ["void registerLuaWrappings() {", "}", ""])
  {
    assert SortedKeys(Start.methods.Keys) == [];
  }

  /**
   * A description made of well-formed class declarations is generated in full:
   * after the preamble, one glue function per member of each class in
   * declaration order, then the registration of the member lists, where a
   * class declared twice keeps only its last list.
   */
  lemma WellFormedDescriptionCompletes(input: string, cs: seq<ClassDecl>)
    requires forall i :: 0 <= i < |cs| ==> WellFormedClass(cs[i])
    requires Tokens(input) == FileTokens(cs)
    ensures Generate(input) == Completed(Preamble + FileGlue(cs) + RegistrationLines(ClassMap(Start.methods, cs)))
  {
    WellFormedClassesFeed(Tokens(input), cs);
    FileEmitted(Start, cs);
  }

  /** In a well-formed description, every member of a class's last declaration is registered under that class. */
  lemma DeclaredMembersRegistered(input: string, cs: seq<ClassDecl>, i: nat, k: nat)
    requires forall j :: 0 <= j < |cs| ==> WellFormedClass(cs[j])
    requires Tokens(input) == FileTokens(cs)
    requires i < |cs| && k < |cs[i].members|
    requires forall j :: i < j < |cs| ==> cs[j].name != cs[i].name
    ensures MethodLine(cs[i].name, MemberName(cs[i].members[k])) in Generate(input).lines
  {
    DeclarationRegistered(Start.methods, cs, i, k, Preamble + FileGlue(cs));
    WellFormedDescriptionCompletes(input, cs);
  }

  lemma WellFormedClassesFeed(tokens: seq<string>, cs: seq<ClassDecl>)
    requires forall i :: 0 <= i < |cs| ==> WellFormedClass(cs[i])
    requires tokens == FileTokens(cs)
    ensures Feed(Config(Initial, Cleared), Start, tokens) == Finished(Config(Initial, Cleared), EmitAll(Start, FileEvents(cs)))
  {
    FileParsed(cs);
    FeedFollowsRun(Config(Initial, Cleared), Start, tokens);
  }

  /** In a completed run, every entry point that registerLuaWrappings registers is a glue function the output defines. */
  lemma RegisteredEntryPointsAreDefined(input: string, cls: string, m: string)
    requires Feed(Config(Initial, Cleared), Start, Tokens(input)).Finished?
    requires var e := Feed(Config(Initial, Cleared), Start, Tokens(input)).emitter;
      cls in e.methods && m in e.methods[cls]
    ensures Generate(input).Completed?
    ensures MethodLine(cls, m) in Generate(input).lines
    ensures Header(cls, m) in Generate(input).lines
  {
    var c := Config(Initial, Cleared);
    FeedFollowsRun(c, Start, Tokens(input));
    var e := Feed(c, Start, Tokens(input)).emitter;
    EmitAllKeepsDefined(Start, Run(c, Tokens(input)).events);
    RegisteredGlueIsDefined(e, cls, m);
    var lines := e.out + RegistrationLines(e.methods);
    var i :| 0 <= i < |e.out| && e.out[i] == Header(cls, m);
    assert lines[i] == Header(cls, m);
    var j :| 0 <= j < |RegistrationLines(e.methods)| && RegistrationLines(e.methods)[j] == MethodLine(cls, m);
    assert lines[|e.out| + j] == MethodLine(cls, m);
  }

  /** `main`: reads the description, writes the glue, and registers it. */
  method GenerateWrappers(input: string) returns (lines: seq<string>, completed: bool)
    ensures Generate(input) == if completed then Completed(lines) else Aborted(lines)
  {
    var out := new Output();
    var t := new Tokenizer(input);
    var p := new LuaWrapperParser(out);
    out.WriteLines(Preamble);
    assert p.Snapshot() == Start;
    completed := FeedTokens(t, p);
    if completed {
      p.RegisterWrappings();
    }
    lines := out.lines;
  }

  /** The token loop of `main`: tokens go to the parser one at a time until the stream has none left or an assertion fails. */
  method FeedTokens(t: Tokenizer, p: LuaWrapperParser) returns (completed: bool)
    requires t.Valid() && t.results == [] && p.Valid()
    modifies t, p, p.out
    ensures p.Valid()
    ensures var fed := Feed(old(p.Current()), old(p.Snapshot()), TokensFrom(t.input, old(t.pos), old(t.good)));
      if completed then fed == Finished(p.Current(), p.Snapshot()) else fed == Stopped(p.Snapshot())
  {
    ghost var goal := Feed(p.Current(), p.Snapshot(), TokensFrom(t.input, t.pos, t.good));
    while true
      invariant t.Valid() && t.results == [] && p.Valid()
      invariant goal == Feed(p.Current(), p.Snapshot(), TokensFrom(t.input, t.pos, t.good))
      decreases Remaining(t.input, t.pos, t.good)
    {
      ghost var pos0, good0 := t.pos, t.good;
      ghost var c0, e0 := p.Current(), p.Snapshot();
      var more := t.ParseToken();
      TokensFromStep(t.input, pos0, good0);
      if !more {
        return true;
      }
      var token := t.GetToken();
      FeedCons(c0, e0, token, TokensFrom(t.input, t.pos, t.good));
      var ok := p.ParseToken(token);
      if !ok {
        return false;
      }
    }
  }
}
