# wrapc: the Lua glue generator of Grail, in Dafny

`runtime/wrapc.cc` is a small compiler. It reads an interface description that
declares native classes, their constructors and their methods, and writes C++
glue through which the embedded Lua interpreter can call them. The glue has
one `int _<Class>_<member>(lua_State* L)` function per member, then a
`registerLuaWrappings()` function that registers every class and member with
the interpreter. The program has four parts:

- a hand-written tokenizer over an `istream`. It skips whitespace and block
  comments with a five-state machine, makes each of `{}()*;,[]` a token, and
  makes any other run of characters a word;
- a parser whose state is the member function its `parseToken` pointer
  designates. It accumulates a `MethodDefinition` and calls overridable hooks;
- the generator `LuaWrapperParser`. It overrides the hooks, writes glue with
  type aliasing (`int`/`bool` to `lua_Integer`, `double` to `lua_Number`),
  and remembers the members of each class in a `std::map`;
- `main`. It writes a fixed preamble, feeds the tokens to the parser one at a
  time, then writes the registration function.

The model also covers `rgb`, `white` and `black` of `lib/sdlutils.cc`, and
`max` and `Exception` of `lib/utils.h`.

Files:

| file | module | contents |
|---|---|---|
| common.dfy | `Optional` | `Option` |
| strings.dfy | `Strings` | decimal printing of integers, joining with a separator, the byte-wise order of `std::string`, and the key order of a `std::map` |
| lexer.dfy | `Lexing` | the tokenizer as functions (`Lex`, `Tokens`) and as the class `Tokenizer` that works on a stream position |
| parser.dfy | `Parsing` | the parser as a transition function `Step`, runs of it, and the grammar of well-formed descriptions with what parsing them does |
| emitter.dfy | `LuaWrapper` | the text of every glue function, the generator's reaction to each hook as a function on its state, and the registration text |
| generator.dfy | `Generator` | the class `LuaWrapperParser`, with the parser's and generator's fields, an output stream object, and methods proved against the two modules above |
| driver.dfy | `Wrapc` | `main`: the preamble, the token loop and the whole run, specified by `Generate` |
| sdlutils.dfy | `SdlUtils` | `rgb` on 32-bit unsigned values |
| utils.dfy | `Utils` | `max` and `Exception` |

Each stateful part of the C++ is a Dafny class proved against a function:

- `Tokenizer.ParseToken` against `Lex`;
- `LuaWrapperParser.ParseToken` against `Step` and `React`;
- the glue writers against `CtorGlue` and `MethodGlue`;
- `RegisterWrappings` against `RegistrationLines`;
- `GenerateWrappers` against `Generate`.

The lemmas about those functions carry the properties.

`Parser` and `LuaWrapperParser` are one class here, because the program
creates only the subclass. `MethodDefinition::clear` (runtime/wrapc.cc:137-143)
is the constant `Parsing.Cleared`, which `Step` installs where the C++ calls
`clear()`. A failed `assert` in the parser is the outcome `Abort`. After an
abort the run stops and keeps what it has written so far. Each line ends with
`endl`, so every line written before the abort has already been flushed.
The preamble `main` writes before reading any token (runtime/wrapc.cc:402-437)
is the constant `Wrapc.Preamble`, line for line.

## Model

| member | source | states |
|---|---|---|
| Strings.NatToString | runtime/wrapc.cc:304 | an `int` printed by `<<` is a non-empty string of decimal digits without a leading zero |
| Strings.NatToStringRoundTrip | runtime/wrapc.cc:304 | reading the printed digits back gives the number |
| Strings.NatToStringInjective | runtime/wrapc.cc:336 | different stack indices print as different texts |
| Strings.JoinSnoc | runtime/wrapc.cc:309-313 | printing a separator before every part but the first is joining the parts with that separator |
| Strings.LessIrreflexive | runtime/wrapc.cc:264 | the key order of `map<string, ...>` is irreflexive |
| Strings.LessTransitive | runtime/wrapc.cc:264 | the key order is transitive |
| Strings.LessTotal | runtime/wrapc.cc:264 | any two distinct keys are ordered one way |
| Strings.LessAsymmetric | runtime/wrapc.cc:264 | no two keys are ordered both ways |
| Strings.LeastExists | runtime/wrapc.cc:375 | a non-empty key set has a least key, where `map::begin` starts |
| Strings.LeastUnique | runtime/wrapc.cc:375 | the least key is unique |
| Strings.SortedKeys | runtime/wrapc.cc:375 | the iteration order visits each key of the map once and nothing else |
| Strings.SortedKeysSorted | runtime/wrapc.cc:375 | the iteration order is strictly increasing |
| Strings.SortedKeysLeast | runtime/wrapc.cc:375 | iteration starts at the least key and goes on with the others |
| Lexing.IsWhiteSpace | runtime/wrapc.cc:30-32 | whitespace is space, tab, newline and bell, all at or below the space character |
| Lexing.IsSingle | runtime/wrapc.cc:34-36 | the single-character tokens are `{}()*;,[]`, none of them whitespace |
| Lexing.SkipBlank | runtime/wrapc.cc:46-55 | the whitespace loop stops at the first character that is not space, tab, newline or bell; everything it skipped is whitespace |
| Lexing.Scan | runtime/wrapc.cc:57-95 | the comment machine either runs out of input, stops on the first character of a token (which is at the start only when that is not `/`), or closes a comment further on |
| Lexing.TokenStart | runtime/wrapc.cc:45-96 | the whitespace and comment loops find a token start at or after the position; that start is the position itself exactly when the character there is neither whitespace nor `/` |
| Lexing.WordEnd | runtime/wrapc.cc:104-108 | a word ends at whitespace, at a single character or at the end of input |
| Lexing.WordEndIsWord | runtime/wrapc.cc:104-107 | the characters collected by the word loop form a word |
| Lexing.Lex | runtime/wrapc.cc:38-111 | one `parseToken`: no token and no movement once the stream is not good; a token only from a good stream; each token advances the stream or leaves it not good, and a stream that stops being good has been read to its end |
| Lexing.LexTokenShape | runtime/wrapc.cc:98-110 | a token is one single character or a maximal word; the word is the text just before where reading stopped |
| Lexing.TokensFrom | runtime/wrapc.cc:122-124 | the tokens `parseAll` queues from a position: none from a stream that is not good, and never more than the characters left, since each token consumes at least one |
| Lexing.Tokens | runtime/wrapc.cc:122-124 | a description yields at most as many tokens as it has characters |
| Lexing.TokensAreSinglesOrWords | runtime/wrapc.cc:122-124 | every token of a stream is a single character or a word |
| Lexing.BlanksSkipped | runtime/wrapc.cc:46-55 | whitespace in front of a token does not change it |
| Lexing.CommentBodyConsumed | runtime/wrapc.cc:79-91 | inside a comment, a stretch in which every `*` is followed by a character other than `/` leaves the machine inside the comment |
| Lexing.CommentSkipped | runtime/wrapc.cc:57-95 | a comment whose body holds no `*/` and does not end in `*` (so `/** doc */` and `/* a * b */` too) yields no token; the next token comes after the closing `*/` |
| Lexing.OpenCommentExhausted | runtime/wrapc.cc:57-95 | inside a comment, input with no `*/` left runs out before the comment closes |
| Lexing.UnclosedCommentEndsInput | runtime/wrapc.cc:57-95 | a comment with no `*/` after its opening ends the token stream |
| Lexing.BlankTailEndsInput | runtime/wrapc.cc:47-55 | trailing whitespace yields no token |
| Lexing.SlashDropsNextCharacter | runtime/wrapc.cc:74-76 | a `/` that does not open a comment is dropped together with the character after it |
| Lexing.SlashExample | runtime/wrapc.cc:63-76 | `/xy` gives the single token `y` |
| Lexing.EmptyWordExample | runtime/wrapc.cc:63-110 | `/x abc` gives an empty word and then `abc` |
| Lexing.DoubleStarExample | runtime/wrapc.cc:84-91 | `**/` does not close a comment: `/*a**/b*/c` gives only `c` |
| Lexing.Tokenizer.Get | runtime/wrapc.cc:48 | `get` returns the next character and advances, or fails and leaves the stream not good |
| Lexing.Tokenizer.Unget | runtime/wrapc.cc:51 | `unget` steps back one character on a good stream and fails on a stream that is not good |
| Lexing.Tokenizer.EatWhiteSpace | runtime/wrapc.cc:47-55 | the stream ends at `SkipBlank`, or not good at the end of input |
| Lexing.Tokenizer.EatComment | runtime/wrapc.cc:57-95 | the stream ends where `Scan` says, with the token's first character read when one was found |
| Lexing.Tokenizer.ReadWord | runtime/wrapc.cc:104-109 | the word read is `input[k..WordEnd]`; the stream ends at the delimiter, or not good at the end of input |
| Lexing.Tokenizer.ParseToken | runtime/wrapc.cc:38-111 | result, position, `good()` and the deque are exactly what `Lex` says |
| Lexing.Tokenizer.GetToken | runtime/wrapc.cc:113-120 | pops the oldest token, or returns `""` on an empty deque |
| Lexing.Tokenizer.ParseAll | runtime/wrapc.cc:122-124 | appends every remaining token of `TokensFrom` to the deque and leaves the stream not good, read to its end (or where it was, when it was not good to begin with) |
| Parsing.IsSpecial | runtime/wrapc.cc:159-161 | the decorations are the one-character tokens `&` and `*` |
| Parsing.Flush | runtime/wrapc.cc:228-229 | a finished signature goes, unchanged, to `onDefineCtor` exactly when it is a constructor, and to `onDefineMethod` otherwise (the same two lines again at 244-245) |
| Parsing.Rejects | runtime/wrapc.cc:163-222 | only the three states that assert on their token (`class` at 165, `]` at 179, `(` at 222) can reject one |
| Parsing.Step | runtime/wrapc.cc:159-255 | a token aborts exactly at the three failing asserts; otherwise at most one hook is called, and a parameter stays in place for a decoration to extend |
| Parsing.Run | runtime/wrapc.cc:440-443 | feeding tokens keeps the accumulator consistent |
| Parsing.RunCons | runtime/wrapc.cc:440-443 | feeding a token and then the rest |
| Parsing.RunAppend | runtime/wrapc.cc:440-443 | feeding `a + b` is feeding `a` and then `b` from where `a` stopped |
| Parsing.MalformedStartAborts | runtime/wrapc.cc:163-166 | input that does not start with `class` aborts before any hook is called |
| Parsing.ModifiersMerged | runtime/wrapc.cc:249-254 | tokens after a parameter are appended to it, each after a space |
| Parsing.ParameterRead | runtime/wrapc.cc:233-236 | a parameter and its modifiers leave one entry in the accumulator |
| Parsing.LastParameterParsed | runtime/wrapc.cc:243-248 | the last parameter and `)` call the hook once and clear the accumulator |
| Parsing.ParameterThenComma | runtime/wrapc.cc:240-242 | a comma after a parameter waits for the next parameter |
| Parsing.ParametersParsed | runtime/wrapc.cc:226-255 | a parameter list ends in exactly one hook call that carries every parameter text in order |
| Parsing.ParameterListParsed | runtime/wrapc.cc:221-255 | from `(`, a parameter list ends in exactly one hook call |
| Parsing.DecorationsAppended | runtime/wrapc.cc:211-214 | `*` and `&` after the return type are appended to it with no space |
| Parsing.CtorParsed | runtime/wrapc.cc:201-204 | `ctor(...)` calls `onDefineCtor` with its parameters |
| Parsing.MethodNameParsed | runtime/wrapc.cc:211-219 | decorations, name and parameter list call the hook with that signature |
| Parsing.MethodTailParsed | runtime/wrapc.cc:205-208 | a method from its return type on calls `onDefineMethod` with its signature |
| Parsing.MemberParsed | runtime/wrapc.cc:193-208 | each well-formed member calls its hook once, with the signature it declares, and leaves the accumulator cleared |
| Parsing.MembersParsed | runtime/wrapc.cc:193-255 | members call their hooks in declaration order |
| Parsing.BracesParsed | runtime/wrapc.cc:183-197 | a class body calls one hook per member, then `onClassEnd`, and returns to the initial state |
| Parsing.RealNameParsed | runtime/wrapc.cc:173-190 | `[ name ]` calls `onRealClassName` and returns to the class start |
| Parsing.ClassBodyParsed | runtime/wrapc.cc:173-197 | an optional real name, then the body |
| Parsing.ClassParsed | runtime/wrapc.cc:163-197 | a well-formed class calls `onStartClass`, `onRealClassName` when there is a real name, one hook per member and `onClassEnd`, in that order |
| Parsing.FileParsed | runtime/wrapc.cc:163-255 | a file of well-formed classes calls the classes' hooks class after class and ends in the initial state |
| LuaWrapper.Dealias | runtime/wrapc.cc:323-328 | a type becomes `lua_Integer`, `lua_Number` or stays as it is |
| LuaWrapper.DealiasLooksUpTable | runtime/wrapc.cc:267-271 | `dealias` is lookup in the alias table, falling back to the type |
| LuaWrapper.DealiasIdempotent | runtime/wrapc.cc:323-328 | dealiasing twice is dealiasing once |
| LuaWrapper.DealiasRewritesExactlyTableKeys | runtime/wrapc.cc:323-328 | a type changes exactly when the table has it |
| LuaWrapper.GlueNamesCanCollide | runtime/wrapc.cc:296 | `_a_b_c` names both member `c` of `a_b` and member `b_c` of `a` |
| LuaWrapper.CtorReads | runtime/wrapc.cc:301-305 | parameter k is declared with its own type and fetched with the aliased type from slot `first + k` |
| LuaWrapper.MethodReads | runtime/wrapc.cc:341-345 | parameter k is declared and fetched with the aliased type from slot `first + k` |
| LuaWrapper.Vars | runtime/wrapc.cc:310-313 | the locals passed to the call, in order |
| LuaWrapper.ArgListJoinsVars | runtime/wrapc.cc:309-313 | the argument list is the locals joined by `, ` |
| LuaWrapper.CtorGlue | runtime/wrapc.cc:292-320 | the lines `onDefineCtor` writes, line by line as the C++ writes them: a header named `_<Class>_ctor`, one read per parameter, the construction, push and return, and the closing brace and blank line |
| LuaWrapper.CtorGlueReadsSlotsInOrder | runtime/wrapc.cc:292-305 | constructor glue reads its N parameters from slots 1..N in order |
| LuaWrapper.CtorGlueConstructs | runtime/wrapc.cc:307-317 | then constructs the real class from those locals in order, pushes it and returns 1 |
| LuaWrapper.InstanceGlueReadsItsDepth | runtime/wrapc.cc:330-345 | instance glue checks for N + 1 slots, reads the receiver from slot 1 and parameter k from slot k + 2, all within the checked depth |
| LuaWrapper.StaticGlueReadsAboveItsDepth | runtime/wrapc.cc:336-345 | static glue checks for N slots but reads the last parameter from slot N + 1 |
| LuaWrapper.MethodGlue | runtime/wrapc.cc:330-370 | the lines `onDefineMethod` writes, line by line as the C++ writes them: a header named `_<Class>_<method>`, the stack-depth assert, a receiver line unless the method is static, one read per parameter, the call and return, and the closing brace and blank line |
| LuaWrapper.MethodGlueReturns | runtime/wrapc.cc:351-369 | `void` returns 0 values; any other return type pushes one value of the aliased type |
| LuaWrapper.React | runtime/wrapc.cc:281-370 | a hook only appends to the output |
| LuaWrapper.EmitAllAppend | runtime/wrapc.cc:440-443 | hooks in sequence compose |
| LuaWrapper.EmitAll | runtime/wrapc.cc:440-443 | the hooks one parsed token calls, run in order; they only append to the output, so what an aborted run leaves is a prefix of what it would have written |
| LuaWrapper.ReactKeepsDefined | runtime/wrapc.cc:292-370 | every member registered in `methods` has its glue function in the output, and each hook keeps that true |
| LuaWrapper.EmitAllKeepsDefined | runtime/wrapc.cc:292-370 | the same over any run of hooks |
| LuaWrapper.MemberNames | runtime/wrapc.cc:293-333 | the names a class's members are registered under, `ctor` for a constructor, one per member in order |
| LuaWrapper.MemberGlue | runtime/wrapc.cc:292-370 | a member's glue starts with the header of the function named after its class and registered name |
| LuaWrapper.MemberEmitted | runtime/wrapc.cc:292-370 | one member hook appends the member's name to the current class's list and writes its glue under the current real name |
| LuaWrapper.MembersEmitted | runtime/wrapc.cc:292-370 | a class's member hooks append their names in declaration order and write one glue function per member in the same order |
| LuaWrapper.ClassEmitted | runtime/wrapc.cc:281-370 | a declared class becomes the current class, uses its `[ Name ]` (or else its own name) as the real name in all its glue, replaces any earlier list of that name by its members in order, and writes their glue in order |
| LuaWrapper.FileEmitted | runtime/wrapc.cc:281-370 | declarations in turn write the glue of each class in turn and leave the member lists of `ClassMap` |
| LuaWrapper.LastDeclarationWins | runtime/wrapc.cc:283-285 | a class declared several times keeps the members of its last declaration only |
| LuaWrapper.UndeclaredUntouched | runtime/wrapc.cc:283-285 | a class no declaration names keeps its list, or stays absent |
| LuaWrapper.DeclarationRegistered | runtime/wrapc.cc:372-385 | every member of a class's last declaration gets a `registerMethod` line |
| LuaWrapper.MethodLines | runtime/wrapc.cc:378-381 | one `registerMethod` line per member, in registration order |
| LuaWrapper.ClassBlocksRegisterAll | runtime/wrapc.cc:375-383 | every member of every visited class gets a `registerMethod` line |
| LuaWrapper.RegistrationLines | runtime/wrapc.cc:372-385 | the lines `registerWrappings` writes, line by line as the C++ writes them: the opening of `registerLuaWrappings`, one block per class in key order, and the closing brace and blank line |
| LuaWrapper.RegistrationCoversMethods | runtime/wrapc.cc:372-385 | every member in `methods` is registered |
| LuaWrapper.RegisteredGlueIsDefined | runtime/wrapc.cc:372-385 | each registered entry point names a glue function the output defines |
| Generator.Output.WriteLine | runtime/wrapc.cc:296 | `<< ... << endl` appends one line |
| Generator.Output.WriteLines | runtime/wrapc.cc:402 | a text with several line breaks appends several lines |
| Generator.LeastKey | runtime/wrapc.cc:375 | finds the key where `map` iteration starts among the keys not yet visited |
| Generator.ArgumentList | runtime/wrapc.cc:309-313 | the comma loop writes the locals joined by `, ` |
| Generator.WriteClassBlocks | runtime/wrapc.cc:375-383 | writes one block per class in iteration order |
| Generator.WriteClassBlock | runtime/wrapc.cc:376-382 | `registerBase`, one `registerMethod` per member, then an empty line |
| Generator.LuaWrapperParser.constructor | runtime/wrapc.cc:149-151 | starts in the initial state with an empty accumulator, class and map |
| Generator.LuaWrapperParser.OnStartClass | runtime/wrapc.cc:281-286 | sets the class and real name and starts an empty member list, replacing any earlier one |
| Generator.LuaWrapperParser.OnRealClassName | runtime/wrapc.cc:288-290 | sets the real class name |
| Generator.LuaWrapperParser.OnDefineCtor | runtime/wrapc.cc:292-320 | registers `ctor` and writes `CtorGlue` |
| Generator.LuaWrapperParser.WriteCtorGlue | runtime/wrapc.cc:295-319 | writes exactly `CtorGlue` |
| Generator.LuaWrapperParser.WriteCtorReads | runtime/wrapc.cc:301-305 | the read loop writes `CtorReads` from slot 1 |
| Generator.LuaWrapperParser.WriteMethodReads | runtime/wrapc.cc:341-345 | the read loop writes `MethodReads` from slot 2 |
| Generator.LuaWrapperParser.OnDefineMethod | runtime/wrapc.cc:330-370 | registers the method name and writes `MethodGlue` |
| Generator.LuaWrapperParser.WriteMethodGlue | runtime/wrapc.cc:331-369 | writes exactly `MethodGlue` |
| Generator.LuaWrapperParser.WriteCallAndReturn | runtime/wrapc.cc:347-369 | the call through `obj->` or `Real::`, the return, and the closing lines |
| Generator.LuaWrapperParser.ParseToken | runtime/wrapc.cc:163-255 | aborts exactly when `Rejects`; otherwise the new configuration is `Step`'s and the new generator state is the old one after `Step`'s hooks |
| Generator.LuaWrapperParser.ParseParameterToken | runtime/wrapc.cc:226-255 | the same for the two parameter-list states |
| Generator.LuaWrapperParser.FlushMethod | runtime/wrapc.cc:227-231 | calls the constructor or method hook, then clears the accumulator and awaits a return type |
| Generator.LuaWrapperParser.RegisterWrappings | runtime/wrapc.cc:372-385 | writes exactly `RegistrationLines` of the map |
| Wrapc.FeedFollowsRun | runtime/wrapc.cc:440-443 | the interleaved loop ends where parsing everything and replaying the hooks ends; it stops exactly when the parse aborts |
| Wrapc.Feed | runtime/wrapc.cc:440-443 | the token loop of `main`, each token's hooks run before the next token is read; it only appends output, whether it runs out of tokens or stops at a failing assert |
| Wrapc.Generate | runtime/wrapc.cc:393-447 | the whole output of `main`: the preamble, the glue of the hooks, then the registration function, or only what was written before a failing assert; whatever the input, it starts with the preamble |
| Wrapc.MalformedStartWritesPreambleOnly | runtime/wrapc.cc:163-166 | input whose first token is not `class` aborts with the preamble written and nothing else |
| Wrapc.EmptyDescription | runtime/wrapc.cc:440-444 | with no tokens the output is the preamble and an empty registration function |
| Wrapc.WellFormedClassesFeed | runtime/wrapc.cc:440-443 | well-formed classes feed to the end without aborting |
| Wrapc.WellFormedDescriptionCompletes | runtime/wrapc.cc:393-447 | a well-formed description is generated in full: the preamble, one glue function per member of each class in declaration order, then the registration of the member lists, a class declared twice keeping its last list |
| Wrapc.DeclaredMembersRegistered | runtime/wrapc.cc:372-385 | in a well-formed description every member of each class's last declaration is registered in the output |
| Wrapc.RegisteredEntryPointsAreDefined | runtime/wrapc.cc:372-385 | in a completed run, each `registerMethod` line and the glue function it names are both in the output |
| Wrapc.FeedTokens | runtime/wrapc.cc:440-443 | the token loop reaches the state `Feed` says: finished when the stream runs out, stopped at the first failing assert |
| Wrapc.GenerateWrappers | runtime/wrapc.cc:393-447 | the whole program writes exactly `Generate(input)` |
| SdlUtils.Rgb | lib/sdlutils.cc:9-15 | the padding byte is left as the uninitialised local held it |
| SdlUtils.RgbRoundTrip | lib/sdlutils.cc:9-15 | the channels recombine to the low 24 bits of the argument |
| SdlUtils.RgbIgnoresTopByte | lib/sdlutils.cc:11 | the top byte of the argument has no effect |
| SdlUtils.RgbInjective | lib/sdlutils.cc:9-15 | different 24-bit values give different colours |
| SdlUtils.PackedRgb | lib/sdlutils.cc:9-15 | for a 24-bit value the channels recombine to the value |
| SdlUtils.RgbOfPacked | lib/sdlutils.cc:9-15 | decoding packed channels gives those channels back |
| SdlUtils.WhiteAndBlack | lib/sdlutils.cc:6-7 | `white` has every channel at 0xff and `black` every channel at 0 |
| Utils.Max | lib/utils.h:47-50 | the result is one of the arguments: the first when it is `>=` the second, otherwise the second |
| Utils.MaxIsUpperBound | lib/utils.h:47-50 | for a total `>=` the result is at least both arguments |
| Utils.MaxTieIsFirst | lib/utils.h:49 | on a tie the first argument is returned |
| Utils.MaxIdempotent | lib/utils.h:47-50 | `max(a, a)` is `a` |
| Utils.CString | lib/utils.h:11 | `c_str()` as a C caller reads it: the text before the first NUL, which contains no NUL |
| Utils.CStringOfPlainText | lib/utils.h:11 | text without NUL reads back unchanged |
| Utils.Exception.constructor | lib/utils.h:10-11 | keeps the message; `what()` returns it when it has no NUL, and a prefix of it otherwise |

## Left out

- Opening the file named by `argv[1]` and the `argc > 1` assert (runtime/wrapc.cc:394-396). The file's contents are the parameter `input` of `GenerateWrappers`, and standard output is the `Output` object.
- The progress message that `onStartClass` writes to `cerr` (runtime/wrapc.cc:282). It goes to another stream and changes nothing in the output.
- The destructor (runtime/wrapc.cc:272-279). It only frees the member lists, so there is no memory to model.
- The hooks `onClassEnd` and the base `Parser` hooks (runtime/wrapc.cc:153-157) do nothing, so they have no member.
- Builds with `NDEBUG`, where the parser's asserts are gone, are not modelled. The asserts always abort here.
- Before the first `{`, the flags of `currentMethod` are uninitialised in C++. The model starts with `Cleared`. Nothing reads the accumulator before `{` clears it.
- Lexing.Tokenizer: only what `parseToken` needs from an `istream` is modelled: a position, a `good()` flag, `get` and `unget`. A failed `get` sets the fail bit and later `unget`s fail too, as in C++11. Bytes are characters, with no encoding.
- Utils.Max: `operator>=` of `T` is a function parameter. No property of a particular `T` is assumed except where a lemma requires a total preorder.
- SdlUtils.Rgb: the padding byte `unused` of the uninitialised local is a parameter, because its value is indeterminate.
- The other declarations in lib/utils.h (`startswith`, `dirname`, `touch`, `exists`, `pathDelimiter`) are declared there but not defined, so they are not part of this model.

## Behaviour worth knowing

- Static methods read their parameters from slot 2 on (runtime/wrapc.cc:342), as instance methods do, so slot 1 is never read. A static method's glue checks for N slots and reads its last parameter from slot N + 1 (`LuaWrapper.StaticGlueReadsAboveItsDepth`).
- An abort leaves the preamble and every glue line written so far. The preamble is written before any token is read, and `endl` flushes each line (`Wrapc.MalformedStartWritesPreambleOnly`, `Wrapc.Generate`).
- A `;` after a declaration's `)` is not skipped: `parseMethodReturnType` takes it as the next member's return type (runtime/wrapc.cc:193-209).
- A `/` that does not start a comment is not a token: it is dropped together with the character after it (`Lexing.SlashDropsNextCharacter`), which can leave an empty word (`Lexing.EmptyWordExample`).
- `**/` does not end a comment, because a second `*` returns the comment machine to the in-comment state (`Lexing.DoubleStarExample`).
- Glue names are `_<Class>_<member>` with no escaping, so member `c` of class `a_b` and member `b_c` of class `a` get the same function name (`LuaWrapper.GlueNamesCanCollide`).
