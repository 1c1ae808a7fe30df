/**
 * The tokenizer of runtime/wrapc.cc. Whitespace is exactly space, tab,
 * newline and bell; block comments (slash-star to star-slash) are skipped by a
 * five-state machine;
 * each of `{}()*;,[]` is a token of its own and every other run of characters
 * is a word. The stream is a character sequence, a read position and the
 * stream's `good()` flag.
 */
module Lexing {
  import opened Optional

  /** The characters `isWhiteSpace` skips: all of them control characters or the space. */
  predicate IsWhiteSpace(c: char)
    ensures IsWhiteSpace(c) ==> c <= ' '
  {
    c == ' ' || c == '\t' || c == '\n' || c == '\U{7}'
  }

  /** The characters that are tokens on their own; none of them is whitespace. */
  predicate IsSingle(c: char)
    ensures IsSingle(c) ==> !IsWhiteSpace(c)
  {
    c in "{}()*;,[]"
  }

  /** A one-character token: one of the single characters. */
  predicate IsSingleToken(t: string) {
    |t| == 1 && IsSingle(t[0])
  }

  /** A word token: no whitespace and no single character in it (possibly empty). */
  predicate IsWord(t: string) {
    forall i :: 0 <= i < |t| ==> !IsWhiteSpace(t[i]) && !IsSingle(t[i])
  }

  datatype CommentState = Code | Slash | SlashStar | SlashStarStar | End

  /** The first position at or after p that is not whitespace. */
  function SkipBlank(s: string, p: nat): (q: nat)
    requires p <= |s|
    ensures p <= q <= |s|
    ensures q < |s| ==> !IsWhiteSpace(s[q])
    ensures forall i :: p <= i < q ==> IsWhiteSpace(s[i])
    decreases |s| - p
  {
    if p < |s| && IsWhiteSpace(s[p]) then SkipBlank(s, p + 1) else p
  }

  /** How one run of the comment machine ends: the input runs out, a token's first character is read, or a comment closes. */
  datatype ScanEnd = Exhausted | TokenAt(k: nat) | Closed(next: nat)

  /** The comment machine from state st at p, one state change per character read. */
  function Scan(s: string, p: nat, st: CommentState): (r: ScanEnd)
    requires p <= |s| && st != End
    ensures r.TokenAt? ==> p <= r.k < |s| && (r.k == p ==> st == Code && s[p] != '/')
    ensures r.Closed? ==> p < r.next <= |s|
    decreases |s| - p
  {
    if p == |s| then Exhausted
    else
      match st
      case Code => if s[p] == '/' then Scan(s, p + 1, Slash) else TokenAt(p)
      case Slash => if s[p] == '*' then Scan(s, p + 1, SlashStar) else Scan(s, p + 1, Code)
      case SlashStar => if s[p] == '*' then Scan(s, p + 1, SlashStarStar) else Scan(s, p + 1, SlashStar)
      case SlashStarStar => if s[p] == '/' then Closed(p + 1) else Scan(s, p + 1, SlashStar)
  }

  /**
   * Where the next token's first character is, starting at p: whitespace is
   * skipped, then the comment machine runs from Code, and after a closed
   * comment both start over. None when the input runs out first.
   */
  function TokenStart(s: string, p: nat): (r: Option<nat>)
    requires p <= |s|
    ensures r.Some? ==> p <= r.value < |s|
    ensures r == Some(p) <==> p < |s| && !IsWhiteSpace(s[p]) && s[p] != '/'
    decreases |s| - p
  {
    var q := SkipBlank(s, p);
    if q == |s| then None
    else
      match Scan(s, q, Code)
      case Exhausted => None
      case TokenAt(k) => Some(k)
      case Closed(n) => TokenStart(s, n)
  }

  /** The end of the word that starts at k: the first whitespace, single character or end of input. */
  function WordEnd(s: string, k: nat): (j: nat)
    requires k <= |s|
    ensures k <= j <= |s|
    ensures j < |s| ==> IsWhiteSpace(s[j]) || IsSingle(s[j])
    decreases |s| - k
  {
    if k < |s| && !IsWhiteSpace(s[k]) && !IsSingle(s[k]) then WordEnd(s, k + 1) else k
  }

  /** What the word loop reads is a word. */
  lemma {:induction false} WordEndIsWord(s: string, k: nat)
    requires k <= |s|
    ensures IsWord(s[k..WordEnd(s, k)])
    decreases |s| - k
  {
    if k < |s| && !IsWhiteSpace(s[k]) && !IsSingle(s[k]) {
      WordEndIsWord(s, k + 1);
      assert s[k..WordEnd(s, k)] == [s[k]] + s[k + 1..WordEnd(s, k)];
    }
  }

  /** What one call of `parseToken` does: whether it produced a token, which, and the stream state after it. */
  datatype LexResult = LexResult(ok: bool, token: string, pos: nat, good: bool)

  /**
   * One call of `parseToken` on the stream s read up to p. Reading past the end
   * clears `good`; once it is clear no token comes any more. A word that runs to
   * the end of the input is still produced, and the stream is left not good.
   */
  function Lex(s: string, p: nat, good: bool): (r: LexResult)
    requires p <= |s|
    ensures r.pos <= |s|
    ensures r.ok ==> good
    ensures !r.ok ==> !r.good && r.token == ""
    ensures r.ok ==> p < r.pos
    ensures !good ==> r.pos == p
    ensures good && !r.good ==> r.pos == |s|
  {
    if !good then LexResult(false, "", p, false)
    else
      match TokenStart(s, p)
      case None => LexResult(false, "", |s|, false)
      case Some(k) =>
        if IsSingle(s[k]) then LexResult(true, [s[k]], k + 1, true)
        else
          var j := WordEnd(s, k);
          if j == |s| then LexResult(true, s[k..j], |s|, false)
          else LexResult(true, s[k..j], j, true)
  }

  /**
   * A token is either one single character or a word; a word is maximal: it is
   * the text just before the position reading stopped at, and that position
   * holds whitespace or a single character, or is the end of the input.
   */
  lemma LexTokenShape(s: string, p: nat, good: bool)
    requires p <= |s|
    ensures var r := Lex(s, p, good);
      && (r.ok ==> IsSingleToken(r.token) || IsWord(r.token))
      && (r.ok && !IsSingleToken(r.token) && r.good ==>
            r.pos < |s| && (IsWhiteSpace(s[r.pos]) || IsSingle(s[r.pos])) &&
            |r.token| <= r.pos && s[r.pos - |r.token|..r.pos] == r.token)
      && (r.ok && !IsSingleToken(r.token) && !r.good ==>
            r.pos == |s| && 0 < |r.token| <= |s| && s[|s| - |r.token|..] == r.token)
  {
    if good && TokenStart(s, p).Some? {
      WordEndIsWord(s, TokenStart(s, p).value);
    }
  }

  /** A measure that every successful call of `parseToken` decreases. */
  function Remaining(s: string, p: nat, good: bool): nat
    requires p <= |s|
  {
    if good then |s| - p + 1 else 0
  }

  /** The tokens successive calls of `parseToken` produce from a stream at p. */
  function TokensFrom(s: string, p: nat, good: bool): (r: seq<string>)
    requires p <= |s|
    ensures !good ==> r == []
    ensures |r| <= |s| - p
    decreases Remaining(s, p, good)
  {
    var r := Lex(s, p, good);
    if !r.ok then [] else [r.token] + TokensFrom(s, r.pos, r.good)
  }

  lemma TokensFromStep(s: string, p: nat, good: bool)
    requires p <= |s|
    ensures var r := Lex(s, p, good);
      TokensFrom(s, p, good) == (if r.ok then [r.token] else []) + TokensFrom(s, r.pos, r.good)
  {
  }

  /** The tokens of a whole input. */
  function Tokens(s: string): (r: seq<string>)
    ensures |r| <= |s|
  {
    TokensFrom(s, 0, true)
  }

  /** Every token is a single character of `{}()*;,[]` or a word free of whitespace and single characters. */
  lemma {:induction false} TokensAreSinglesOrWords(s: string, p: nat, good: bool)
    requires p <= |s|
    ensures forall t :: t in TokensFrom(s, p, good) ==> IsSingleToken(t) || IsWord(t)
    decreases Remaining(s, p, good)
  {
    var r := Lex(s, p, good);
    if r.ok {
      LexTokenShape(s, p, good);
      TokensAreSinglesOrWords(s, r.pos, r.good);
    }
  }

  /** Whitespace in front of the next token makes no difference to it. */
  lemma {:induction false} BlanksSkipped(s: string, p: nat, q: nat)
    requires p <= q <= |s|
    requires forall i :: p <= i < q ==> IsWhiteSpace(s[i])
    ensures TokenStart(s, p) == TokenStart(s, q)
    decreases q - p
  {
    if p < q {
      BlanksSkipped(s, p + 1, q);
    }
  }

  /**
   * Inside a comment, a body in which every star is followed, still inside the
   * body, by a character other than a slash leaves the machine where it was:
   * such a star and its successor take the machine out of and back into the
   * comment state.
   */
  lemma {:induction false} CommentBodyConsumed(s: string, p: nat, q: nat)
    requires p <= q <= |s|
    requires forall i :: p <= i < q && s[i] == '*' ==> i + 1 < q && s[i + 1] != '/'
    ensures Scan(s, p, SlashStar) == Scan(s, q, SlashStar)
    decreases q - p
  {
    if p < q {
      if s[p] == '*' {
        assert Scan(s, p + 1, SlashStarStar) == Scan(s, p + 2, SlashStar);
        CommentBodyConsumed(s, p + 2, q);
      } else {
        CommentBodyConsumed(s, p + 1, q);
      }
    }
  }

  /**
   * A block comment produces no token: when its body of n characters holds no
   * star-slash and does not end in a star, the next token is the one after the
   * closing star-slash.
   */
  lemma CommentSkipped(s: string, p: nat, n: nat)
    requires p + n + 4 <= |s|
    requires s[p] == '/' && s[p + 1] == '*'
    requires forall i :: p + 2 <= i < p + 1 + n ==> !(s[i] == '*' && s[i + 1] == '/')
    requires n > 0 ==> s[p + 1 + n] != '*'
    requires s[p + 2 + n] == '*' && s[p + 3 + n] == '/'
    ensures TokenStart(s, p) == TokenStart(s, p + n + 4)
  {
    assert SkipBlank(s, p) == p;
    CommentBodyConsumed(s, p + 2, p + 2 + n);
    calc {
      Scan(s, p, Code);
      Scan(s, p + 1, Slash);
      Scan(s, p + 2, SlashStar);
      Scan(s, p + 2 + n, SlashStar);
      Scan(s, p + 3 + n, SlashStarStar);
      Closed(p + n + 4);
    }
  }

  /** Inside a comment, an input whose rest holds no star-slash runs out before the comment closes. */
  lemma {:induction false} OpenCommentExhausted(s: string, q: nat)
    requires q <= |s|
    requires forall i :: q <= i < |s| - 1 ==> !(s[i] == '*' && s[i + 1] == '/')
    ensures Scan(s, q, SlashStar) == Exhausted
    decreases |s| - q
  {
    if q < |s| {
      if s[q] == '*' {
        if q + 1 < |s| {
          assert Scan(s, q + 1, SlashStarStar) == Scan(s, q + 2, SlashStar);
          OpenCommentExhausted(s, q + 2);
        }
      } else {
        OpenCommentExhausted(s, q + 1);
      }
    }
  }

  /** A comment that is never closed (no star-slash after its opening) ends the token stream. */
  lemma UnclosedCommentEndsInput(s: string, p: nat)
    requires p + 2 <= |s|
    requires s[p] == '/' && s[p + 1] == '*'
    requires forall i :: p + 2 <= i < |s| - 1 ==> !(s[i] == '*' && s[i + 1] == '/')
    ensures !Lex(s, p, true).ok
  {
    assert SkipBlank(s, p) == p;
    OpenCommentExhausted(s, p + 2);
    assert Scan(s, p, Code) == Exhausted;
  }

  /** Input that ends in whitespace yields no further token. */
  lemma BlankTailEndsInput(s: string, p: nat)
    requires p <= |s|
    requires forall i :: p <= i < |s| ==> IsWhiteSpace(s[i])
    ensures !Lex(s, p, true).ok
  {
    BlanksSkipped(s, p, |s|);
  }

  /**
   * A `/` at the start of a token that does not open a comment is dropped
   * together with the character after it: the token starts one further on.
   */
  lemma SlashDropsNextCharacter(s: string, p: nat)
    requires p + 2 < |s|
    requires s[p] == '/' && s[p + 1] != '*' && s[p + 2] != '/'
    ensures TokenStart(s, p) == Some(p + 2)
  {
    assert SkipBlank(s, p) == p;
    assert Scan(s, p + 1, Slash) == Scan(s, p + 2, Code);
  }

  /** A slash that opens no comment takes the character after it along: `/xy` gives the single token `y`. */
  lemma SlashExample()
    ensures Tokens("/xy") == ["y"]
  {
    var s := "/xy";
    assert Scan(s, 2, Code) == TokenAt(2);
    assert Scan(s, 0, Code) == TokenAt(2);
    assert TokenStart(s, 0) == Some(2);
    assert WordEnd(s, 2) == 3;
    assert Lex(s, 0, true) == LexResult(true, "y", 3, false);
    TokensFromStep(s, 0, true);
    assert TokensFrom(s, 3, false) == [];
  }

  /** When the dropped character is followed by whitespace, the tokenizer produces an empty word. */
  lemma EmptyWordExample()
    ensures Tokens("/x abc") == ["", "abc"]
  {
    var s := "/x abc";
    assert s[0] == '/' && s[1] == 'x' && s[2] == ' ' && s[3] == 'a';
    assert Scan(s, 2, Code) == TokenAt(2);
    assert Scan(s, 0, Code) == TokenAt(2);
    assert TokenStart(s, 0) == Some(2);
    assert WordEnd(s, 2) == 2 && s[2..2] == "";
    assert Lex(s, 0, true) == LexResult(true, "", 2, true);
    assert SkipBlank(s, 3) == 3;
    assert SkipBlank(s, 2) == 3;
    assert Scan(s, 3, Code) == TokenAt(3);
    assert TokenStart(s, 2) == Some(3);
    assert WordEnd(s, 3) == 6 && s[3..6] == "abc";
    assert Lex(s, 2, true) == LexResult(true, "abc", 6, false);
    TokensFromStep(s, 2, true);
    assert TokensFrom(s, 6, false) == [];
    TokensFromStep(s, 0, true);
  }

  /** Two stars before the slash do not close a comment: the comment below ends only at the second closing mark. */
  lemma DoubleStarExample()
    ensures Tokens("/*a**/b*/c") == ["c"]
  {
    var s := "/*a**/b*/c";
    assert Scan(s, 7, SlashStar) == Closed(9);
    assert Scan(s, 4, SlashStarStar) == Closed(9);
    assert Scan(s, 0, Code) == Closed(9);
    assert TokenStart(s, 9) == Some(9);
    assert TokenStart(s, 0) == Some(9);
    assert WordEnd(s, 9) == 10;
    assert Lex(s, 0, true) == LexResult(true, "c", 10, false);
    TokensFromStep(s, 0, true);
    assert TokensFrom(s, 10, false) == [];
  }

  /** A word character at i extends the word read from k by one, and the word ends where it would have from i + 1. */
  lemma WordGrows(s: string, k: nat, i: nat)
    requires k <= i < |s| && !IsWhiteSpace(s[i]) && !IsSingle(s[i])
    ensures s[k..i] + [s[i]] == s[k..i + 1]
    ensures WordEnd(s, i) == WordEnd(s, i + 1)
  {
  }

  /** After one call of `parseToken`, the deque and the tokens still to come hold the same tokens as before it. */
  lemma TokenQueued(s: string, p: nat, good: bool, before: seq<string>, after: seq<string>)
    requires p <= |s|
    requires var r := Lex(s, p, good); after == before + (if r.ok then [r.token] else [])
    ensures var r := Lex(s, p, good); after + TokensFrom(s, r.pos, r.good) == before + TokensFrom(s, p, good)
  {
    TokensFromStep(s, p, good);
  }

  /**
   * The tokenizer object: the input stream (its characters, the read position
   * and `good()`) and the deque of tokens produced and not yet handed out.
   */
  class Tokenizer {
    const input: string
    var pos: nat
    var good: bool
    var results: seq<string>

    ghost predicate Valid()
      reads this
    {
      pos <= |input|
    }

    constructor (input: string)
      ensures Valid() && this.input == input
      ensures pos == 0 && good && results == []
    {
      this.input := input;
      pos := 0;
      good := true;
      results := [];
    }

    /** `stream.get()`: the next character, or, past the end, a failure that leaves the stream not good. */
    method Get() returns (c: char)
      requires Valid()
      modifies this`pos, this`good
      ensures Valid()
      ensures old(good) && old(pos) < |input| ==> good && pos == old(pos) + 1 && c == input[old(pos)]
      ensures !(old(good) && old(pos) < |input|) ==> !good && pos == old(pos)
    {
      if good && pos < |input| {
        c := input[pos];
        pos := pos + 1;
      } else {
        c := '\0';
        good := false;
      }
    }

    /** `stream.unget()`: steps back one character; on a stream that is not good it fails and changes nothing. */
    method Unget()
      requires Valid()
      modifies this`pos, this`good
      ensures Valid()
      ensures old(good) && old(pos) > 0 ==> good && pos == old(pos) - 1
      ensures !(old(good) && old(pos) > 0) ==> !good && pos == old(pos)
    {
      if good && pos > 0 {
        pos := pos - 1;
      } else {
        good := false;
      }
    }

    /** The whitespace-eating loop of `parseToken`: stops in front of the first other character, or fails at the end. */
    method EatWhiteSpace()
      requires Valid() && good
      modifies this`pos, this`good
      ensures Valid()
      ensures var q := SkipBlank(input, old(pos));
        if q == |input| then !good && pos == |input| else good && pos == q
    {
      while good
        invariant Valid() && old(pos) <= pos
        invariant SkipBlank(input, pos) == SkipBlank(input, old(pos))
        invariant !good ==> pos == |input|
        decreases |input| - pos
      {
        var c := Get();
        if !good {
          return;
        }
        if !IsWhiteSpace(c) {
          Unget();
          break;
        }
      }
    }

    /**
     * The comment-eating loop of `parseToken`, run from state Code. It either
     * reads the token's first character into c (clearing
     * isWhiteSpaceOrComment), consumes a whole comment (setting it), or fails
     * at the end of the input.
     */
    method EatComment() returns (isWhiteSpaceOrComment: bool, c: char)
      requires Valid() && good
      modifies this`pos, this`good
      ensures Valid()
      ensures match Scan(input, old(pos), Code)
        case Exhausted => !good && pos == |input|
        case TokenAt(k) => good && !isWhiteSpaceOrComment && pos == k + 1 && c == input[k]
        case Closed(n) => good && isWhiteSpaceOrComment && pos == n
    {
      isWhiteSpaceOrComment := true;
      c := '\0';
      var commentState := Code;
      while good && commentState != End
        invariant Valid() && good
        invariant commentState != End ==> isWhiteSpaceOrComment
        invariant commentState != End ==> Scan(input, pos, commentState) == Scan(input, old(pos), Code)
        invariant commentState == End && isWhiteSpaceOrComment ==> Scan(input, old(pos), Code) == Closed(pos)
        invariant commentState == End && !isWhiteSpaceOrComment ==>
          1 <= pos && Scan(input, old(pos), Code) == TokenAt(pos - 1) && c == input[pos - 1]
        decreases |input| - pos
      {
        c := Get();
        if !good {
          return;
        }
        match commentState {
          case Code =>
            if c == '/' {
              commentState := Slash;
              isWhiteSpaceOrComment := true;
            } else {
              isWhiteSpaceOrComment := false;
              commentState := End;
              assert Scan(input, pos - 1, Code) == TokenAt(pos - 1);
            }
          case Slash =>
            if c == '*' { commentState := SlashStar; } else { commentState := Code; }
          case SlashStar =>
            if c == '*' { commentState := SlashStarStar; }
          case SlashStarStar =>
            if c == '/' { commentState := End; } else { commentState := SlashStar; }
        }
      }
    }

    /**
     * The word loop of `parseToken`: c, already read from position pos - 1, and
     * the characters after it up to whitespace, a single character or the end;
     * the delimiter is put back.
     */
    method ReadWord(c0: char) returns (token: string)
      requires Valid() && good && 1 <= pos && c0 == input[pos - 1] && !IsSingle(c0)
      modifies this`pos, this`good
      ensures Valid()
      ensures var k, j := old(pos) - 1, WordEnd(input, old(pos) - 1);
        && token == input[k..j]
        && (if j == |input| then !good && pos == |input| else good && pos == j)
    {
      ghost var k := pos - 1;
      var c := c0;
      token := "";
      while good && !IsWhiteSpace(c) && !IsSingle(c)
        invariant Valid() && k < pos
        invariant good ==> c == input[pos - 1] && token == input[k..pos - 1] && WordEnd(input, k) == WordEnd(input, pos - 1)
        invariant !good ==> pos == |input| && token == input[k..] && WordEnd(input, k) == |input|
        decreases (if good then 1 else 0) + |input| - pos
      {
        WordGrows(input, k, pos - 1);
        token := token + [c];
        c := Get();
      }
      Unget();
    }

    /** `parseToken`: reads one token into the deque; false when the stream had no token left. */
    method ParseToken() returns (ok: bool)
      requires Valid()
      modifies this`pos, this`good, this`results
      ensures Valid()
      ensures var r := Lex(input, old(pos), old(good));
        && ok == r.ok && pos == r.pos && good == r.good
        && results == old(results) + (if r.ok then [r.token] else [])
    {
      if !good {
        return false;
      }
      var c: char := '\0';
      var isWhiteSpaceOrComment := true;
      ghost var start := TokenStart(input, pos);

      while isWhiteSpaceOrComment
        invariant Valid() && good && results == old(results)
        invariant isWhiteSpaceOrComment ==> TokenStart(input, pos) == start
        invariant !isWhiteSpaceOrComment ==> 1 <= pos && start == Some(pos - 1) && c == input[pos - 1]
        decreases |input| - pos, isWhiteSpaceOrComment
      {
        EatWhiteSpace();
        if !good {
          return false;
        }
        isWhiteSpaceOrComment, c := EatComment();
        if !good {
          return false;
        }
      }

      if IsSingle(c) {
        var token := [c];
        results := results + [token];
        return true;
      }
      var token := ReadWord(c);
      results := results + [token];
      return true;
    }

    /** `getToken`: the oldest token not yet handed out, or the empty string when there is none. */
    method GetToken() returns (t: string)
      modifies this`results
      ensures old(results) == [] ==> t == "" && results == []
      ensures old(results) != [] ==> t == old(results)[0] && results == old(results)[1..]
    {
      if |results| > 0 {
        t := results[0];
        results := results[1..];
        return;
      }
      return "";
    }

    /** `parseAll`: reads every remaining token into the deque. */
    method ParseAll()
      requires Valid()
      modifies this`pos, this`good, this`results
      ensures Valid() && !good
      ensures pos == if old(good) then |input| else old(pos)
      ensures results == old(results) + TokensFrom(input, old(pos), old(good))
    {
      var more := true;
      while more
        invariant Valid()
        invariant !more ==> !good
        invariant !good ==> pos == if old(good) then |input| else old(pos)
        invariant results + TokensFrom(input, pos, good) == old(results) + TokensFrom(input, old(pos), old(good))
        decreases Remaining(input, pos, good) + (if more then 1 else 0)
      {
        ghost var p0, g0, r0 := pos, good, results;
        more := ParseToken();
        TokenQueued(input, p0, g0, r0, results);
      }
      TokensFromStep(input, pos, good);
    }
  }
}
