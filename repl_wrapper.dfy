/**
  The parts of `MsfconsoleREPLWrapper` that are plain computation: the floor
  on the prompt-wait timeout, the random prompt token and the console command
  that installs it.  Spawning `msfconsole` and matching prompts with regular
  expressions stay outside the model; the random draws are a parameter.
 */
module ReplWrapper {
  import opened Options

  /** The shortest wait, in seconds, that `_expect_prompt` will use. */
  const MinPromptWait: int := 10

  /** The default `timeout` argument of `_expect_prompt`. */
  const DefaultPromptWait: int := -1

  /** `max(timeout, 10)`: the wait `_expect_prompt` really uses. */
  function ExpectTimeout(timeout: int): (wait: int)
    ensures wait >= MinPromptWait && wait >= timeout
    ensures wait == timeout || wait == MinPromptWait
  {
    if timeout < MinPromptWait then MinPromptWait else timeout
  }

  /** The `count` consecutive characters starting at `first`. */
  function CharRange(first: char, count: nat): (r: string)
    requires first as int + count <= 0xD800
    ensures |r| == count
    ensures forall i :: 0 <= i < count ==> r[i] as int == first as int + i
  {
    seq(count, i requires 0 <= i < count => (first as int + i) as char)
  }

  /** `string.ascii_letters + string.digits`: a-z, then A-Z, then 0-9. */
  const Alphabet: string := CharRange('a', 26) + CharRange('A', 26) + CharRange('0', 10)

  /** The number of characters drawn for the prompt token. */
  const TokenLength: nat := 16

  predicate IsAsciiAlnum(c: char) {
    ('a' <= c <= 'z') || ('A' <= c <= 'Z') || ('0' <= c <= '9')
  }

  /** The alphabet holds exactly the ASCII letters and digits. */
  lemma AlphabetIsAsciiAlnum(c: char)
    ensures c in Alphabet <==> IsAsciiAlnum(c)
  {
    if IsAsciiAlnum(c) {
      assert Alphabet[AlphabetIndex(c)] == c;
    }
  }

  /** The position of a character in the alphabet. */
  function AlphabetIndex(c: char): (i: nat)
    requires IsAsciiAlnum(c)
    ensures i < |Alphabet| && Alphabet[i] == c
  {
    if 'a' <= c <= 'z' then c as int - 'a' as int
    else if 'A' <= c <= 'Z' then 26 + c as int - 'A' as int
    else 52 + c as int - '0' as int
  }

  /**
    The prompt token: `TokenLength` calls of `random.choice` over the alphabet.
    `pick(i)` is the position chosen by the i-th call; it is taken modulo the
    alphabet size, which leaves every position `random.choice` can return as it is.
   */
  function Token(pick: nat -> nat): (token: string)
    ensures |token| == TokenLength
    ensures forall i :: 0 <= i < |token| ==> IsAsciiAlnum(token[i])
  {
    var token := seq(TokenLength, i requires 0 <= i < TokenLength => Alphabet[pick(i) % |Alphabet|]);
    forall i | 0 <= i < |token| ensures IsAsciiAlnum(token[i]) {
      AlphabetIsAsciiAlnum(token[i]);
    }
    token
  }

  /** Every 16-character string of ASCII letters and digits can be drawn as the token. */
  lemma TokenCoversAllCandidates(candidate: string)
    requires |candidate| == TokenLength
    requires forall i :: 0 <= i < |candidate| ==> IsAsciiAlnum(candidate[i])
    ensures exists pick: nat -> nat :: Token(pick) == candidate
  {
    var pick := (i: nat) => if i < |candidate| then AlphabetIndex(candidate[i]) else 0;
    forall i | 0 <= i < TokenLength ensures Token(pick)[i] == candidate[i] {
      TokenDraws(pick, i);
    }
    assert Token(pick) == candidate;
  }

  /** A draw that lands inside the alphabet picks exactly that character. */
  lemma TokenDraws(pick: nat -> nat, i: nat)
    requires i < TokenLength && pick(i) < |Alphabet|
    ensures Token(pick)[i] == Alphabet[pick(i)]
  {
    var j := pick(i);
    assert |Alphabet| == 62;
    assert j % 62 == j;
  }

  const PromptCommandPrefix: string := "set Prompt "

  /** `"set Prompt {0}".format(token)`: the console command that installs the token. */
  function PromptChange(token: string): (command: string)
    ensures |command| == |PromptCommandPrefix| + |token|
    ensures command[..|PromptCommandPrefix|] == PromptCommandPrefix
    ensures command[|PromptCommandPrefix|..] == token
  {
    PromptCommandPrefix + token
  }

  /** The token a `set Prompt` command installs, if the command is one. */
  function PromptOf(command: string): (token: Option<string>)
    ensures token.Some? ==> PromptChange(token.value) == command
  {
    if |PromptCommandPrefix| <= |command| && command[..|PromptCommandPrefix|] == PromptCommandPrefix
    then
      assert command == PromptCommandPrefix + command[|PromptCommandPrefix|..];
      Some(command[|PromptCommandPrefix|..])
    else None
  }

  /** The command built for a token gives that token back, so distinct tokens give distinct commands. */
  lemma PromptChangeRoundTrip(token: string)
    ensures PromptOf(PromptChange(token)) == Some(token)
  {
  }

  /** The command the wrapper sends at start-up is 27 characters long and carries the drawn token. */
  lemma StartupPromptChange(pick: nat -> nat)
    ensures |PromptChange(Token(pick))| == 27
    ensures PromptOf(PromptChange(Token(pick))) == Some(Token(pick))
  {
    PromptChangeRoundTrip(Token(pick));
  }
}
