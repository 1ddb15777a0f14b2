/**
 * The chat-command syntax of the server (mp3d-core/src/server/mod.rs,
 * `execute_command`): a message starting with '/' is split at Unicode white
 * space, the first word names the command and `/nick` takes the second word
 * as the nickname.
 */
module ChatCommands {

  /** `char::is_whitespace`: the Unicode White_Space property. */
  predicate IsWhitespace(c: char) {
    var u := c as int;
    || (0x09 <= u <= 0x0D) || u == 0x20 || u == 0x85 || u == 0xA0 || u == 0x1680
    || (0x2000 <= u <= 0x200A) || u == 0x2028 || u == 0x2029 || u == 0x202F
    || u == 0x205F || u == 0x3000
  }

  /** What `split_whitespace` yields: a non-empty run without white space. */
  predicate Word(w: string) {
    |w| > 0 && forall i :: 0 <= i < |w| ==> !IsWhitespace(w[i])
  }

  /** The length of the white-space-free prefix. */
  function WordLen(s: string): (n: nat)
    ensures n <= |s|
    ensures forall i :: 0 <= i < n ==> !IsWhitespace(s[i])
    ensures n < |s| ==> IsWhitespace(s[n])
  {
    if |s| == 0 || IsWhitespace(s[0]) then 0 else 1 + WordLen(s[1..])
  }

  /** `split_whitespace`: the maximal white-space-free runs, left to right. */
  function Words(s: string): (ws: seq<string>)
    ensures forall i :: 0 <= i < |ws| ==> Word(ws[i])
    decreases |s|
  {
    if |s| == 0 then []
    else if IsWhitespace(s[0]) then Words(s[1..])
    else
      var n := WordLen(s);
      [s[..n]] + Words(s[n..])
  }

  /** The words separated by single spaces. */
  function Unwords(ws: seq<string>): string {
    if |ws| == 0 then ""
    else if |ws| == 1 then ws[0]
    else ws[0] + " " + Unwords(ws[1..])
  }

  /** A word followed by white space or nothing is measured exactly. */
  lemma {:induction false} WordLenOf(w: string, t: string)
    requires forall i :: 0 <= i < |w| ==> !IsWhitespace(w[i])
    requires |t| == 0 || IsWhitespace(t[0])
    ensures WordLen(w + t) == |w|
    decreases |w|
  {
    if |w| > 0 {
      assert (w + t)[1..] == w[1..] + t;
      WordLenOf(w[1..], t);
    } else {
      assert w + t == t;
    }
  }

  /** Splitting words joined by spaces gives the words back. */
  lemma {:induction false} WordsUnwords(ws: seq<string>)
    requires forall i :: 0 <= i < |ws| ==> Word(ws[i])
    ensures Words(Unwords(ws)) == ws
    decreases |ws|
  {
    if |ws| == 1 {
      var w := ws[0];
      WordLenOf(w, "");
      assert w + "" == w;
      assert w[..|w|] == w;
      assert w[|w|..] == "";
    } else if |ws| > 1 {
      var w := ws[0];
      var rest := " " + Unwords(ws[1..]);
      var s := w + rest;
      assert Unwords(ws) == s;
      WordLenOf(w, rest);
      assert s[..|w|] == w;
      assert s[|w|..] == rest;
      assert rest[1..] == Unwords(ws[1..]);
      WordsUnwords(ws[1..]);
      assert Words(s) == [w] + Words(rest);
      assert [w] + ws[1..] == ws;
    }
  }

  /** A text that does not start with white space has a first word, and it is the text's leading run. */
  lemma FirstWord(s: string)
    requires |s| > 0 && !IsWhitespace(s[0])
    ensures |Words(s)| > 0 && Words(s)[0] == s[..WordLen(s)] && WordLen(s) > 0
  {
  }

  /** What `execute_command` makes of a chat line before it touches the server. */
  datatype Command =
    | NotCommand
    | NoCommand
    | MissingNickname
    | Nick(nickname: string)
    | Unknown

  /**
   * Lines without a leading '/' are chat. Otherwise the first word selects the
   * command: `/nick` with at least one more word names its second word as
   * the nickname; any other first word is unknown.
   */
  function ParseCommand(line: string): (c: Command)
    ensures c.NotCommand? <==> !(|line| > 0 && line[0] == '/')
    ensures c.Nick? ==> Word(c.nickname)
  {
    if !(|line| > 0 && line[0] == '/') then NotCommand
    else
      var ws := Words(line);
      if |ws| == 0 then NoCommand
      else if ws[0] == "/nick" then (if |ws| < 2 then MissingNickname else Nick(ws[1]))
      else Unknown
  }

  /** The "No command provided" error cannot happen: '/' is not white space, so there is a first word. */
  lemma NeverNoCommand(line: string)
    ensures ParseCommand(line) != NoCommand
  {
    if |line| > 0 && line[0] == '/' {
      FirstWord(line);
    }
  }

  lemma NickIsWord()
    ensures Word("/nick")
  {
    var nick := "/nick";
    forall i | 0 <= i < |nick|
      ensures !IsWhitespace(nick[i])
    {
      assert nick[i] == '/' || 'c' <= nick[i] <= 'n' by {
        if i == 0 {} else if i == 1 {} else if i == 2 {} else if i == 3 {} else {}
      }
    }
  }

  /** Words joined by spaces, the first starting with '/', parse by their first two words. */
  lemma ParseUnwords(ws: seq<string>)
    requires forall i :: 0 <= i < |ws| ==> Word(ws[i])
    requires |ws| > 0 && Word(ws[0]) && ws[0][0] == '/'
    ensures ParseCommand(Unwords(ws)) ==
      if ws[0] != "/nick" then Unknown else if |ws| < 2 then MissingNickname else Nick(ws[1])
  {
    WordsUnwords(ws);
    var line := Unwords(ws);
    assert line[0] == '/' by {
      if |ws| > 1 {
        assert line == ws[0] + " " + Unwords(ws[1..]);
      }
    }
  }

  /**
   * `/nick` followed by words sets the nickname to the first of them, however
   * many follow; `/nick` alone lacks a nickname.
   */
  lemma NickCommand(args: seq<string>)
    requires forall i :: 0 <= i < |args| ==> Word(args[i])
    ensures |args| == 0 ==> ParseCommand(Unwords(["/nick"] + args)) == MissingNickname
    ensures |args| > 0 ==> ParseCommand(Unwords(["/nick"] + args)) == Nick(args[0])
  {
    var nick := "/nick";
    var ws := [nick] + args;
    NickIsWord();
    forall i | 0 <= i < |ws|
      ensures Word(ws[i])
    {
      if i > 0 {
        assert ws[i] == args[i - 1];
      }
    }
    ParseUnwords(ws);
  }
}
