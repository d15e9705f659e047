/** Chat messages, the constructor's truncation, and the server's command syntax
    (common/source/chat_message.cpp, server/source/chat_server.cpp). */
module Messages {

  const CONTENT_MAX_LENGTH: nat := 512
  const TARGET_MAX_LENGTH: nat := 20
  const SOURCE_MAX_LENGTH: nat := TARGET_MAX_LENGTH

  datatype MessageType = Text | Command | Status | Unknown

  datatype Message = Message(source: string, target: string, content: string, kind: MessageType)

  function Truncate(s: string, size: nat): string {
    if |s| > size then s[..size] else s
  }

  /** The message constructor: every field is cut to its maximum length. A decoded
      message is not built this way, so its fields may be longer. */
  function NewMessage(source: string, target: string, content: string, kind: MessageType): (m: Message)
    ensures m.source <= source && (|m.source| == |source| <= 20 || |m.source| == 20 < |source|)
    ensures m.target <= target && (|m.target| == |target| <= 20 || |m.target| == 20 < |target|)
    ensures m.content <= content && (|m.content| == |content| <= 512 || |m.content| == 512 < |content|)
    ensures m.kind == kind
  {
    Message(Truncate(source, SOURCE_MAX_LENGTH), Truncate(target, TARGET_MAX_LENGTH),
            Truncate(content, CONTENT_MAX_LENGTH), kind)
  }

  /** What the server says in its own name: a status message from "server". */
  function StatusMessage(target: string, content: string): (m: Message)
    ensures m.source == "server" && m.kind == Status
    ensures m.target == (if |target| <= 20 then target else target[..20])
    ensures m.content == (if |content| <= 512 then content else content[..512])
  {
    NewMessage("server", target, content, Status)
  }

  /** The client's answer to a ping. */
  predicate IsPong(m: Message) {
    m.kind == Status && m.content == "pong"
  }

  predicate IsAlpha(c: char) {
    'a' <= c <= 'z' || 'A' <= c <= 'Z'
  }

  predicate IsAlnum(c: char) {
    IsAlpha(c) || '0' <= c <= '9'
  }

  /** The part of `valid_id` that looks only at the text. */
  predicate WellFormedId(id: string) {
    |id| >= 3 && IsAlpha(id[0]) && forall i | 0 <= i < |id| :: IsAlnum(id[i])
  }

  predicate IsSeparator(c: char) {
    c == '\t' || c == ' '
  }

  /** `boost::split` without token compression: neighbouring separators give empty tokens. */
  function Split(s: string): (tokens: seq<string>)
    ensures |tokens| >= 1
  {
    if s == "" then [""]
    else if IsSeparator(s[0]) then [""] + Split(s[1..])
    else
      var rest := Split(s[1..]);
      [[s[0]] + rest[0]] + rest[1..]
  }

  /** Puts the separators `seps` back between `tokens`. */
  function Rejoin(tokens: seq<string>, seps: string): string
    requires |tokens| == |seps| + 1
  {
    if seps == "" then tokens[0] else tokens[0] + [seps[0]] + Rejoin(tokens[1..], seps[1..])
  }

  /** The separators of `s`, in order. */
  function Separators(s: string): (seps: string)
    ensures forall i | 0 <= i < |seps| :: seps[i] == ' ' || seps[i] == '\t'
  {
    if s == "" then ""
    else if IsSeparator(s[0]) then [s[0]] + Separators(s[1..])
    else Separators(s[1..])
  }

  lemma {:induction false} TokensHoldNoSeparator(s: string)
    ensures forall t, i | t in Split(s) && 0 <= i < |t| :: t[i] != ' ' && t[i] != '\t'
  {
    if s != "" {
      TokensHoldNoSeparator(s[1..]);
    }
  }

  /** Splitting loses nothing: putting the separators back between the tokens gives the text. */
  lemma {:induction false} SplitRejoins(s: string)
    ensures |Split(s)| == |Separators(s)| + 1
    ensures Rejoin(Split(s), Separators(s)) == s
  {
    if s != "" {
      SplitRejoins(s[1..]);
      var rest := Split(s[1..]);
      if IsSeparator(s[0]) {
        assert Split(s)[1..] == rest;
        assert Separators(s)[1..] == Separators(s[1..]);
      } else {
        var head := [s[0]] + rest[0];
        assert Split(s) == [head] + rest[1..];
        assert Split(s)[1..] == rest[1..];
        if Separators(s) != "" {
          var sep := [Separators(s)[0]];
          assert head + sep + Rejoin(rest[1..], Separators(s)[1..])
              == [s[0]] + (rest[0] + sep + Rejoin(rest[1..], Separators(s)[1..]));
        }
      }
    }
  }

  datatype CommandLine =
    | JoinCommand(channel: string)
    | LeaveCommand(channel: string)
    | NickCommand(name: string)
    | MissingArgument
    | UnknownCommand

  /** What `do_command` makes of a command message: the first token and the first argument decide. */
  function ParseCommand(content: string): CommandLine {
    var tokens := Split(content);
    var known := tokens[0] in ["/join", "/j", "/leave", "/nick"];
    if !known then UnknownCommand
    else if |tokens| == 1 then MissingArgument
    else if tokens[0] == "/leave" then LeaveCommand(tokens[1])
    else if tokens[0] == "/nick" then NickCommand(tokens[1])
    else JoinCommand(tokens[1])
  }

  // ---------------------------------------------------------------- command lines by their text

  lemma SplitCons(c: char, s: string)
    requires c != ' ' && c != '\t'
    ensures Split([c] + s) == [[c] + Split(s)[0]] + Split(s)[1..]
  {
    assert ([c] + s)[1..] == s;
  }

  lemma SplitAtSeparator(rest: string)
    requires rest == "" || rest[0] == ' ' || rest[0] == '\t'
    ensures Split(rest) == if rest == "" then [""] else [""] + Split(rest[1..])
  {
  }

  /** A word in front of a blank or tab, or alone, is the first token. */
  lemma {:induction false} FirstToken(word: string, rest: string)
    requires forall i | 0 <= i < |word| :: word[i] != ' ' && word[i] != '\t'
    requires rest == "" || rest[0] == ' ' || rest[0] == '\t'
    ensures Split(word + rest) == if rest == "" then [word] else [word] + Split(rest[1..])
  {
    hide Split;
    if word == "" {
      assert word + rest == rest;
      SplitAtSeparator(rest);
    } else {
      var later := word[1..];
      FirstToken(later, rest);
      assert word + rest == [word[0]] + (later + rest);
      SplitCons(word[0], later + rest);
      assert [word[0]] + later == word;
    }
  }

  /** Every text is a first word and what follows it. */
  lemma {:induction false} FirstWord(content: string) returns (word: string, rest: string)
    ensures content == word + rest
    ensures forall i | 0 <= i < |word| :: word[i] != ' ' && word[i] != '\t'
    ensures rest == "" || rest[0] == ' ' || rest[0] == '\t'
  {
    if content == "" || content[0] == ' ' || content[0] == '\t' {
      word, rest := "", content;
    } else {
      var later;
      later, rest := FirstWord(content[1..]);
      word := [content[0]] + later;
      assert word[1..] == later;
      assert forall i | 1 <= i < |word| :: word[i] == later[i - 1];
    }
  }

  /** A word, a separator and an argument, with or without more behind: the word decides. */
  lemma ArgumentOf(word: string, sep: char, a: string, more: string)
    requires sep == ' ' || sep == '\t'
    requires forall i | 0 <= i < |a| :: a[i] != ' ' && a[i] != '\t'
    requires more == "" || more[0] == ' ' || more[0] == '\t'
    ensures word == "/join" || word == "/j" ==> ParseCommand(word + [sep] + a + more) == JoinCommand(a)
    ensures word == "/leave" ==> ParseCommand(word + [sep] + a + more) == LeaveCommand(a)
    ensures word == "/nick" ==> ParseCommand(word + [sep] + a + more) == NickCommand(a)
  {
    if word in ["/join", "/j", "/leave", "/nick"] {
      var rest := [sep] + (a + more);
      assert word + [sep] + a + more == word + rest;
      FirstToken(word, rest);
      assert rest[1..] == a + more;
      FirstToken(a, more);
    }
  }

  lemma NoArgument(word: string)
    requires word == "/join" || word == "/j" || word == "/leave" || word == "/nick"
    ensures ParseCommand(word) == MissingArgument
  {
    FirstToken(word, "");
    assert word + "" == word;
  }

  lemma OtherWord(word: string, rest: string)
    requires forall i | 0 <= i < |word| :: word[i] != ' ' && word[i] != '\t'
    requires rest == "" || rest[0] == ' ' || rest[0] == '\t'
    requires word != "/join" && word != "/j" && word != "/leave" && word != "/nick"
    ensures ParseCommand(word + rest) == UnknownCommand
  {
    FirstToken(word, rest);
  }
}
