/**
 * What the consumer (resp3/readable.js) and the producer (resp3/writable.js)
 * share: the connection parameters they keep, the state of their socket, the
 * inline commands they write by hand (HELLO, QUIT) and the `-ERR` test they
 * apply to every chunk the socket delivers.
 */
module Protocol {
  import opened Text

  /**
   * The credentials an endpoint keeps. Both constructors store the username and
   * the password only when the password is truthy, that is, given and not empty.
   */
  datatype Credentials = NoAuth | Auth(username: string, password: string)

  /**
   * `if (password)`: the credentials are kept exactly when a password is given
   * and is not the empty string, the one string JavaScript takes as false.
   */
  function CredentialsOf(password: Option<string>, username: string): Credentials
  {
    if password.Some? && password.value != "" then Auth(username, password.value) else NoAuth
  }

  /**
   * The life of the endpoint's current socket: created and connecting, open,
   * ended (no longer writable), destroyed.
   */
  datatype Socket = Connecting | Open | Ended | Destroyed

  /**
   * The protocol handshake of section "The HELLO command and connection
   * handshake" of the RESP3 specification. The template closes the password
   * with a stray `}`, which therefore becomes part of the password sent.
   */
  function Hello(credentials: Credentials): string
  {
    "HELLO 3"
    + (match credentials
       case NoAuth => ""
       case Auth(user, password) => " AUTH " + user + " " + password + "}")
    + "\r\n"
  }

  const Quit: string := "QUIT\r\n"

  /**
   * A command written inline: a single line, terminated by CR LF, whose
   * space-separated words are `words`.
   */
  predicate IsInlineCommand(cmd: string, words: seq<string>)
  {
    Split(cmd) == [JoinWords(words), ""] && SplitWords(Split(cmd)[0]) == words
  }

  lemma InlineCommandOf(words: seq<string>)
    requires |words| >= 1
    requires forall i :: 0 <= i < |words| ==> IsBareWord(words[i])
    ensures IsInlineCommand(JoinWords(words) + Crlf, words)
  {
    var line := JoinWords(words);
    JoinWordsHasNoCr(words);
    NoCrNoCrlf(line);
    SplitTerminatedLine(line);
    SplitJoinWords(words);
  }

  lemma InlineCommandIs(cmd: string, words: seq<string>)
    requires |words| >= 1
    requires forall i :: 0 <= i < |words| ==> IsBareWord(words[i])
    requires cmd == JoinWords(words) + Crlf
    ensures IsInlineCommand(cmd, words)
  {
    InlineCommandOf(words);
  }

  lemma {:induction false} JoinWordsCons(w: string, ws: seq<string>)
    requires |ws| >= 1
    ensures JoinWords([w] + ws) == w + " " + JoinWords(ws)
  {
    assert ([w] + ws)[1..] == ws;
  }

  lemma {:induction false} JoinWordsAppend(a: seq<string>, b: seq<string>)
    requires |a| >= 1 && |b| >= 1
    ensures JoinWords(a + b) == JoinWords(a) + " " + JoinWords(b)
    decreases |a|
  {
    assert [a[0]] + (a[1..] + b) == a + b;
    JoinWordsCons(a[0], a[1..] + b);
    if |a| > 1 {
      JoinWordsAppend(a[1..], b);
      assert [a[0]] + a[1..] == a;
      JoinWordsCons(a[0], a[1..]);
    }
  }

  /** Two, five and six words joined by single spaces. */
  lemma JoinTwoWords(a: string, b: string)
    ensures JoinWords([a, b]) == a + " " + b
  {
    assert [a, b][1..] == [b];
  }

  lemma JoinFiveWords(a: string, b: string, c: string, d: string, e: string)
    ensures JoinWords([a, b, c, d, e]) == a + " " + b + " " + c + " " + d + " " + e
  {
    var sp := " ";
    JoinTwoWords(d, e);
    JoinWordsCons(c, [d, e]);
    JoinWordsCons(b, [c, d, e]);
    JoinWordsCons(a, [b, c, d, e]);
    assert [c] + [d, e] == [c, d, e];
    assert [b] + [c, d, e] == [b, c, d, e];
    assert [a] + [b, c, d, e] == [a, b, c, d, e];
    assert a + sp + (b + sp + (c + sp + (d + sp + e))) == a + sp + b + sp + c + sp + d + sp + e;
  }

  lemma JoinSixWords(a: string, b: string, c: string, d: string, e: string, f: string)
    ensures JoinWords([a, b, c, d, e, f]) == a + " " + b + " " + c + " " + d + " " + e + " " + f
  {
    var sp := " ";
    JoinFiveWords(b, c, d, e, f);
    JoinWordsCons(a, [b, c, d, e, f]);
    assert [a] + [b, c, d, e, f] == [a, b, c, d, e, f];
    assert a + sp + (b + sp + c + sp + d + sp + e + sp + f) == a + sp + b + sp + c + sp + d + sp + e + sp + f;
  }

  lemma HelloAuthLine(username: string, password: string)
    ensures Hello(Auth(username, password))
         == JoinWords(["HELLO", "3", "AUTH", username, password + "}"]) + Crlf
  {
    JoinFiveWords("HELLO", "3", "AUTH", username, password + "}");
    HelloLiterals();
    HelloRegroup("HELLO", "3", "AUTH", username, password, " ", "}", Crlf);
  }

  /** Proof step: the literal pieces of the HELLO template, and its keywords are bare. */
  lemma HelloLiterals()
    ensures "HELLO 3" == "HELLO" + " " + "3"
    ensures " AUTH " == " " + "AUTH" + " "
    ensures IsBareWord("HELLO") && IsBareWord("3") && IsBareWord("AUTH")
  {
  }

  /** Proof step: regroups the concatenation of the HELLO line. */
  lemma HelloRegroup(h: string, t: string, a: string, u: string, p: string, sp: string, close: string, crlf: string)
    ensures (h + sp + t) + ((sp + a + sp) + u + sp + p + close) + crlf
         == h + sp + t + sp + a + sp + u + sp + (p + close) + crlf
  {
  }

  /**
   * The HELLO line asks for protocol 3; with credentials its words are
   * `AUTH`, the username and the password followed by `}`.
   */
  lemma HelloWords(password: Option<string>, username: string)
    requires password.Some? && password.value != "" ==> IsBareWord(username) && IsBareWord(password.value)
    ensures password.Some? && password.value != "" ==>
      IsInlineCommand(Hello(CredentialsOf(password, username)),
                      ["HELLO", "3", "AUTH", username, password.value + "}"])
    ensures password.None? || password.value == "" ==>
      IsInlineCommand(Hello(CredentialsOf(password, username)), ["HELLO", "3"])
  {
    HelloLiterals();
    if password.Some? && password.value != "" {
      var p := password.value + "}";
      assert IsBareWord(p) by {
        forall i | 0 <= i < |p| ensures p[i] != ' ' && p[i] != '\r' && p[i] != '\n' {
          if i < |password.value| { assert p[i] == password.value[i]; }
        }
      }
      var words := ["HELLO", "3", "AUTH", username, p];
      HelloAuthLine(username, password.value);
      assert forall i :: 0 <= i < |words| ==> IsBareWord(words[i]);
      InlineCommandIs(Hello(CredentialsOf(password, username)), words);
    } else {
      JoinTwoWords("HELLO", "3");
      assert forall i :: 0 <= i < 2 ==> IsBareWord(["HELLO", "3"][i]);
      InlineCommandIs(Hello(CredentialsOf(password, username)), ["HELLO", "3"]);
    }
  }

  /**
   * The `-ERR` test applied to every chunk read from the socket: the error
   * message is the chunk from index 5 on (empty when the chunk is shorter).
   */
  function ErrorReply(data: string): (message: Option<string>)
  {
    if |data| >= 4 && data[..4] == "-ERR" then Some(if |data| >= 5 then data[5..] else "") else None
  }

  /**
   * An error frame `-ERR <text>` yields `<text>` with the frame's terminator
   * still attached; any chunk not starting with `-ERR` is not an error.
   */
  lemma ErrorReplyMessage(text: string, data: string)
    ensures ErrorReply("-ERR " + text + Crlf) == Some(text + Crlf)
    ensures !(|data| >= 4 && data[..4] == "-ERR") ==> ErrorReply(data) == None
  {
    var d := "-ERR " + text + Crlf;
    assert d[..4] == "-ERR";
    assert d[5..] == text + Crlf;
  }
}
