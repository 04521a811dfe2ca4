/**
 * The `!`-command grammar of the auto-responder: how a message text becomes a command
 * name and its arguments, and which reply each command gets.
 */
module Commands {
  import opened JsText

  const Prefix: char := '!'
  const PongReply: string := "Pong!"
  const HelpReply: string := "Commands: !ping, !echo <text>, !help"
  const EchoPlaceholder: string := "No text provided."
  const UnknownPrefix: string := "Unknown command: "

  /** A parsed command: its lower-cased name and its argument tokens. */
  datatype Command = Command(name: string, args: seq<string>)

  /** Whether the handler treats `text` as a command: `text.startsWith('!')`. */
  predicate IsCommandText(text: string) {
    |text| > 0 && text[0] == Prefix
  }

  /** `text.slice(1)`: everything after the first character, and nothing for an empty
      text. */
  function AfterPrefix(text: string): (rest: string)
    ensures text == [] ==> rest == []
    ensures text != [] ==> text == [text[0]] + rest
  {
    if text == [] then [] else text[1..]
  }

  /** `text.slice(1).trim().split(/\s+/)`: a single empty token exactly when nothing
      but whitespace follows the first character, and otherwise non-empty tokens only. */
  function Tokens(text: string): (tokens: seq<string>)
    ensures |tokens| >= 1
    ensures forall k :: 0 <= k < |tokens| ==> NoSpace(tokens[k])
    ensures tokens[0] == "" <==> AllSpace(AfterPrefix(text))
    ensures tokens[0] == "" ==> tokens == [""]
    ensures tokens[0] != "" ==> AllWords(tokens)
  {
    var body := Trim(AfterPrefix(text));
    if body != [] then SplitTrimmedIsWords(body); Split(body)
    else Split(body)
  }

  /** `cmd = args.shift().toLowerCase()` over the tokens, the rest being the arguments.
      The name is empty exactly when nothing but whitespace follows the first character;
      otherwise the name and every argument are non-empty, and no token holds whitespace. */
  function ParseCommand(text: string): (cmd: Command)
    ensures NoUpper(cmd.name) && NoSpace(cmd.name)
    ensures forall k :: 0 <= k < |cmd.args| ==> NoSpace(cmd.args[k])
    ensures cmd.name == "" <==> AllSpace(AfterPrefix(text))
    ensures cmd.name == "" ==> cmd.args == []
    ensures cmd.name != "" ==> AllWords(cmd.args)
  {
    var tokens := Tokens(text);
    var name, args := ToLower(tokens[0]), tokens[1..];
    assert forall k :: 0 <= k < |args| ==> args[k] == tokens[k + 1];
    Command(name, args)
  }

  /** The text of the single quoted reply a command gets. */
  function ReplyText(cmd: Command): (reply: string)
    ensures reply != ""
    ensures cmd.name == "ping" ==> reply == PongReply
    ensures cmd.name == "help" ==> reply == HelpReply
    ensures cmd.name == "echo" ==> reply == (if Join(cmd.args) == "" then EchoPlaceholder else Join(cmd.args))
    ensures cmd.name !in {"ping", "echo", "help"} ==> reply == UnknownPrefix + cmd.name
  {
    if cmd.name == "ping" then PongReply
    else if cmd.name == "echo" then
      var joined := Join(cmd.args);
      if joined == "" then EchoPlaceholder else joined
    else if cmd.name == "help" then HelpReply
    else UnknownPrefix + cmd.name
  }

  /** The reply the handler sends for a message text that starts with `!`. */
  function Answer(text: string): (reply: string)
    ensures reply != ""
  {
    ReplyText(ParseCommand(text))
  }

  /** Parsing inverts writing a command out: `!`, optional whitespace, the words with
      runs of whitespace between them, optional whitespace. The first word comes back
      lower-cased as the name, the others as the arguments; so `!ECHO  hello\tworld`
      names `echo` with the arguments `hello` and `world`. */
  lemma {:induction false} ParseWritten(text: string, pre: string, words: seq<string>, seps: seq<string>, post: string)
    requires |words| >= 1 && |seps| == |words| - 1
    requires AllWords(words) && Separators(seps)
    requires AllSpace(pre) && AllSpace(post)
    requires text == [Prefix] + pre + JoinWith(words, seps) + post
    ensures ParseCommand(text) == Command(ToLower(words[0]), words[1..])
  {
    assert AfterPrefix(text) == pre + JoinWith(words, seps) + post;
    JoinWithEnds(words, seps);
    TrimPadded(pre, JoinWith(words, seps), post);
    SplitJoinWith(words, seps);
  }

  /** Conversely, parsing reads every word of a command text: the name is the first
      word lower-cased, and the first word and the arguments, written out with the
      whitespace runs that stood between them, give back the text after the `!` without
      its surrounding whitespace. */
  lemma ParseReadsEveryWord(text: string)
    requires !AllSpace(AfterPrefix(text))
    ensures var body := Trim(AfterPrefix(text)); var cmd := ParseCommand(text);
      var first := Tokens(text)[0];
      cmd.name == ToLower(first) && JoinWith([first] + cmd.args, Gaps(body)) == body
  {
    var body := Trim(AfterPrefix(text));
    SplitRebuild(body);
    assert Tokens(text) == Split(body);
    assert [Tokens(text)[0]] + Tokens(text)[1..] == Split(body);
  }

  /** `!name arg1 … argN` with single spaces parses to the lower-cased name and the
      arguments. */
  lemma {:induction false} ParseNamed(text: string, name: string, args: seq<string>)
    requires IsWord(name) && |args| >= 1 && AllWords(args)
    requires text == [Prefix] + name + " " + Join(args)
    ensures ParseCommand(text) == Command(ToLower(name), args)
  {
    var words := [name] + args;
    assert words[1..] == args;
    assert AllWords(words) by {
      assert forall k :: 1 <= k < |words| ==> words[k] == args[k - 1];
    }
    assert Join(words) == name + " " + Join(args);
    JoinIsSingleSpaced(words);
    ParseWritten(text, "", words, SingleSpaces(|args|), "");
  }

  /** `!name` alone parses to the lower-cased name and no arguments. */
  lemma {:induction false} ParseBare(text: string, name: string)
    requires IsWord(name)
    requires text == [Prefix] + name
    ensures ParseCommand(text) == Command(ToLower(name), [])
  {
    assert AllWords([name]);
    assert text == [Prefix] + "" + JoinWith([name], []) + "";
    ParseWritten(text, "", [name], [], "");
  }

  /** A bare `!`, or `!` followed by whitespace only, names the empty command, which
      gets the unknown-command reply. */
  lemma BarePrefix(pad: string)
    requires AllSpace(pad)
    ensures ParseCommand([Prefix] + pad) == Command("", [])
    ensures ReplyText(ParseCommand([Prefix] + pad)) == UnknownPrefix
  {
    assert AfterPrefix([Prefix] + pad) == pad;
  }

  /** `echo` answers with its arguments joined by single spaces, and with the
      placeholder exactly when a parsed command has no arguments. */
  lemma {:induction false} EchoReply(text: string)
    requires ParseCommand(text).name == "echo"
    ensures var cmd := ParseCommand(text);
      ReplyText(cmd) == if cmd.args == [] then EchoPlaceholder else Join(cmd.args)
  {
    var cmd := ParseCommand(text);
    if cmd.args != [] {
      JoinEnds(cmd.args);
    }
  }

  /** `!echo` (in any letter case) followed by words sends those words back separated
      by single spaces, whatever whitespace separated them in the message. */
  lemma {:induction false} EchoRoundTrip(text: string, pre: string, name: string, words: seq<string>, seps: seq<string>, post: string)
    requires IsWord(name) && ToLower(name) == "echo"
    requires |words| >= 1 && AllWords(words)
    requires |seps| == |words| && Separators(seps)
    requires AllSpace(pre) && AllSpace(post)
    requires text == [Prefix] + pre + JoinWith([name] + words, seps) + post
    ensures ReplyText(ParseCommand(text)) == Join(words)
  {
    var all := [name] + words;
    assert all[1..] == words;
    assert AllWords(all) by {
      assert forall k :: 1 <= k < |all| ==> all[k] == words[k - 1];
    }
    ParseWritten(text, pre, all, seps, post);
    JoinEnds(words);
  }

  /** The command name ignores the case of what was typed. */
  lemma {:induction false} NameIgnoresCase(pre: string, words: seq<string>, seps: seq<string>, post: string, other: string)
    requires |words| >= 1 && AllWords(words)
    requires |seps| == |words| - 1 && Separators(seps)
    requires AllSpace(pre) && AllSpace(post)
    requires |other| == |words[0]|
    requires forall i :: 0 <= i < |other| ==> LowerChar(other[i]) == LowerChar(words[0][i])
    ensures ParseCommand([Prefix] + pre + JoinWith([other] + words[1..], seps) + post).name
         == ParseCommand([Prefix] + pre + JoinWith(words, seps) + post).name
  {
    var renamed := [other] + words[1..];
    assert AllWords(renamed) by {
      assert forall i :: 0 <= i < |other| ==> IsSpace(other[i]) == IsSpace(words[0][i]) by {
        forall i | 0 <= i < |other| ensures IsSpace(other[i]) == IsSpace(words[0][i]) {
          assert IsSpace(LowerChar(other[i])) == IsSpace(other[i]);
          assert IsSpace(LowerChar(words[0][i])) == IsSpace(words[0][i]);
        }
      }
      assert forall k :: 1 <= k < |renamed| ==> renamed[k] == words[k];
    }
    ParseWritten([Prefix] + pre + JoinWith(words, seps) + post, pre, words, seps, post);
    ParseWritten([Prefix] + pre + JoinWith(renamed, seps) + post, pre, renamed, seps, post);
    assert ToLower(other) == ToLower(words[0]);
  }
}
