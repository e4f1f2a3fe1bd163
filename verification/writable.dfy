/**
 * The producer endpoint of resp3/writable.js: the `XADD` command built from an
 * object, its RESP encoding as an array of blob strings, and the
 * `RedisWritableStream` object that holds objects back while its socket is not
 * yet usable and flushes them, in order, once the server has answered.
 */
module Writable {
  import opened Text
  import opened Protocol

  // ---------------------------------------------------------------------------
  // The XADD argument list
  // ---------------------------------------------------------------------------

  /** A property value of the written object: a string, or anything else. */
  datatype Value<J> = Str(text: string) | Other(value: J)

  /** The entries of the written object, in `Object.entries` order. */
  type Entries<J> = seq<(string, Value<J>)>

  /** A string is sent as it is; anything else as its `JSON.stringify` text. */
  function ArgOf<J>(v: Value<J>, stringify: J -> string): string
  {
    match v
    case Str(s) => s
    case Other(j) => stringify(j)
  }

  /** The `flatMap` over the entries: key, then value, for every entry. */
  function FieldArgs<J>(entries: Entries<J>, stringify: J -> string): (args: seq<string>)
    ensures |args| == 2 * |entries|
    ensures forall i :: 0 <= i < |entries| ==>
      args[2 * i] == entries[i].0 && args[2 * i + 1] == ArgOf(entries[i].1, stringify)
    decreases |entries|
  {
    if |entries| == 0 then []
    else [entries[0].0, ArgOf(entries[0].1, stringify)] + FieldArgs(entries[1..], stringify)
  }

  /** `XADD <stream> * <field> <value> ...`: the server picks the id. */
  function XaddArgs<J>(streamName: string, entries: Entries<J>, stringify: J -> string): seq<string>
  {
    ["XADD", streamName, "*"] + FieldArgs(entries, stringify)
  }

  // ---------------------------------------------------------------------------
  // Encoding as a RESP array of blob strings
  // ---------------------------------------------------------------------------

  /** One blob string: the `$<byte length>` header line and the argument itself. */
  function Blob(arg: string): seq<string>
  {
    ["$" + Decimal(Utf8Length(arg)), arg]
  }

  /** Each argument becomes its `$<byte length>` header line followed by itself. */
  function BlobLines(args: seq<string>): (lines: seq<string>)
    ensures |lines| == 2 * |args|
    ensures forall i :: 0 <= i < |args| ==>
      lines[2 * i] == "$" + Decimal(Utf8Length(args[i])) && lines[2 * i + 1] == args[i]
    decreases |args|
  {
    if |args| == 0 then []
    else Blob(args[0]) + BlobLines(args[1..])
  }

  /** The lines `*<count>`, the blob lines and a final empty line, joined with CR LF. */
  function EncodeCommand(args: seq<string>): string
  {
    Join(["*" + Decimal(|args|)] + BlobLines(args) + [""])
  }

  function EncodeXadd<J>(streamName: string, entries: Entries<J>, stringify: J -> string): string
  {
    EncodeCommand(XaddArgs(streamName, entries, stringify))
  }

  /**
   * `XADD <stream> * <key> <value> ...` as a RESP array: the header counts
   * three arguments plus two per entry, the stream name and `*` come first,
   * and then each entry's key and value, in order.
   */
  lemma XaddLayout<J>(streamName: string, entries: Entries<J>, stringify: J -> string)
    ensures var args := XaddArgs(streamName, entries, stringify);
      && |args| == 3 + 2 * |entries|
      && args[0] == "XADD" && args[1] == streamName && args[2] == "*"
      && (forall i :: 0 <= i < |entries| ==>
            args[3 + 2 * i] == entries[i].0 && args[4 + 2 * i] == ArgOf(entries[i].1, stringify))
      && EncodeXadd(streamName, entries, stringify)
         == "*" + Decimal(3 + 2 * |entries|) + Crlf + Blobs(args)
  {
    var args := XaddArgs(streamName, entries, stringify);
    XaddFields(streamName, entries, stringify);
    assert |args| == 3 + 2 * |entries|;
    assert EncodeXadd(streamName, entries, stringify) == EncodeCommand(args);
    EncodeLayout(args);
  }

  /** Proof step: the field arguments follow the three leading ones. */
  lemma XaddFields<J>(streamName: string, entries: Entries<J>, stringify: J -> string)
    ensures var args := XaddArgs(streamName, entries, stringify);
      forall i :: 0 <= i < |entries| ==>
        args[3 + 2 * i] == entries[i].0 && args[4 + 2 * i] == ArgOf(entries[i].1, stringify)
  {
    var args := XaddArgs(streamName, entries, stringify);
    var fields := FieldArgs(entries, stringify);
    forall i | 0 <= i < |entries|
      ensures args[3 + 2 * i] == entries[i].0 && args[4 + 2 * i] == ArgOf(entries[i].1, stringify)
    {
      assert args[3 + 2 * i] == fields[2 * i];
      assert args[4 + 2 * i] == fields[2 * i + 1];
    }
  }

  /** Reference grammar: a blob string is `$<length> CR LF <bytes> CR LF`. */
  function Blobs(args: seq<string>): string
    decreases |args|
  {
    if |args| == 0 then ""
    else "$" + Decimal(Utf8Length(args[0])) + Crlf + args[0] + Crlf + Blobs(args[1..])
  }

  lemma {:induction false} JoinBlobLines(args: seq<string>)
    ensures Join(BlobLines(args) + [""]) == Blobs(args)
    decreases |args|
  {
    if |args| > 0 {
      var header := "$" + Decimal(Utf8Length(args[0]));
      var rest := BlobLines(args[1..]) + [""];
      JoinBlobLines(args[1..]);
      assert BlobLines(args) + [""] == [header] + ([args[0]] + rest);
      JoinCons(args[0], rest);
      JoinCons(header, [args[0]] + rest);
    }
  }

  /**
   * The encoding is an array header counting the arguments followed by one
   * blob string per argument, and therefore ends with CR LF.
   */
  lemma EncodeLayout(args: seq<string>)
    ensures EncodeCommand(args) == "*" + Decimal(|args|) + Crlf + Blobs(args)
    ensures var e := EncodeCommand(args); |e| >= 2 && e[|e| - 2..] == Crlf
  {
    var parts := ["*" + Decimal(|args|)] + BlobLines(args) + [""];
    JoinBlobLines(args);
    assert parts == ["*" + Decimal(|args|)] + (BlobLines(args) + [""]);
    JoinCons("*" + Decimal(|args|), BlobLines(args) + [""]);
    JoinEndsWithCrlf(parts);
  }

  /** A line made of one marker character and decimal digits holds no CR LF. */
  lemma HeaderHasNoCrlf(marker: char, n: nat)
    requires marker != '\r'
    ensures !HasCrlf([marker] + Decimal(n))
  {
    DecimalRoundTrip(n);
    var line := [marker] + Decimal(n);
    forall i | 0 <= i < |line| ensures line[i] != '\r' {
      if i > 0 { assert line[i] == Decimal(n)[i - 1]; }
    }
    NoCrNoCrlf(line);
  }

  lemma BlobLinesHaveNoCrlf(args: seq<string>)
    requires forall i :: 0 <= i < |args| ==> !HasCrlf(args[i])
    ensures forall i :: 0 <= i < |BlobLines(args)| ==> !HasCrlf(BlobLines(args)[i])
  {
    var lines := BlobLines(args);
    forall i | 0 <= i < |lines| ensures !HasCrlf(lines[i]) {
      var k := i / 2;
      if i % 2 == 0 {
        assert i == 2 * k;
        HeaderHasNoCrlf('$', Utf8Length(args[k]));
        assert "$" + Decimal(Utf8Length(args[k])) == ['$'] + Decimal(Utf8Length(args[k]));
      } else {
        assert i == 2 * k + 1;
      }
    }
  }

  /**
   * When no argument contains CR LF, splitting the encoding at CR LF gives
   * back the header, the blob lines and the empty line, `2 + 2n` parts.
   */
  lemma EncodeLines(args: seq<string>)
    requires forall i :: 0 <= i < |args| ==> !HasCrlf(args[i])
    ensures Split(EncodeCommand(args)) == ["*" + Decimal(|args|)] + BlobLines(args) + [""]
    ensures |Split(EncodeCommand(args))| == 2 + 2 * |args|
  {
    var header := "*" + Decimal(|args|);
    HeaderHasNoCrlf('*', |args|);
    assert header == ['*'] + Decimal(|args|);
    BlobLinesHaveNoCrlf(args);
    FramedLinesHaveNoCrlf(header, BlobLines(args));
    SplitJoin([header] + BlobLines(args) + [""]);
  }

  /** Proof step: a header, lines and an empty last line, none holding CR LF. */
  lemma FramedLinesHaveNoCrlf(header: string, lines: seq<string>)
    requires !HasCrlf(header)
    requires forall i :: 0 <= i < |lines| ==> !HasCrlf(lines[i])
    ensures var parts := [header] + lines + [""];
      forall i :: 0 <= i < |parts| ==> !HasCrlf(parts[i])
  {
    var parts := [header] + lines + [""];
    forall i | 0 <= i < |parts| ensures !HasCrlf(parts[i]) {
      if 1 <= i < |parts| - 1 {
        assert parts[i] == lines[i - 1];
      } else if i == |parts| - 1 {
        assert parts[i] == "";
      }
    }
  }

  // ---------------------------------------------------------------------------
  // The stream object
  // ---------------------------------------------------------------------------

  /** The encodings of a batch of objects, in order. */
  function Encodings<J>(streamName: string, batch: seq<Entries<J>>, stringify: J -> string): (out: seq<string>)
    ensures |out| == |batch|
    ensures forall i :: 0 <= i < |batch| ==> out[i] == EncodeXadd(streamName, batch[i], stringify)
    decreases |batch|
  {
    if |batch| == 0 then []
    else Encodings(streamName, batch[..|batch| - 1], stringify)
         + [EncodeXadd(streamName, batch[|batch| - 1], stringify)]
  }

  lemma EncodingsSnoc<J>(streamName: string, batch: seq<Entries<J>>, i: nat, stringify: J -> string)
    requires i < |batch|
    ensures Encodings(streamName, batch[..i + 1], stringify)
         == Encodings(streamName, batch[..i], stringify) + [EncodeXadd(streamName, batch[i], stringify)]
  {
    assert batch[..i + 1][..i] == batch[..i];
  }

  class ProducerStream<J> {
    const streamName: string
    const credentials: Credentials
    /** `JSON.stringify` of a non-string value. */
    const stringify: J -> string

    var socket: Socket
    var autoReconnect: bool
    /** The current socket's `once('data')` that announces `'connect'` is still armed. */
    var awaitingFirstData: bool
    /**
     * Objects held back: the `_transform` call waiting for `'connect'`, then
     * the objects the stream machinery keeps behind it until its callback runs.
     */
    var pending: seq<Entries<J>>
    /** `destroy()` has been called on the stream. */
    var destroyed: bool
    /** `_destroy` waits for the reply to QUIT. */
    var closing: bool

    /** What `_transform` pushed into the pipe towards the socket, in order. */
    var pushed: seq<string>
    /** What was written on the socket directly (HELLO, QUIT), in order. */
    var written: seq<string>
    /** Messages of the `'error'` events. */
    var errors: seq<string>

    ghost predicate Valid()
      reads this
    {
      && (pending != [] ==> awaitingFirstData)
      && (socket == Connecting ==> awaitingFirstData)
      && (destroyed ==> !autoReconnect)
      && (closing ==> destroyed)
    }

    constructor(streamName: string, password: Option<string>, username: string, stringify: J -> string)
      ensures Valid()
      ensures this.streamName == streamName && this.stringify == stringify
      ensures credentials == CredentialsOf(password, username)
      ensures socket == Connecting && awaitingFirstData && autoReconnect
      ensures pending == [] && !destroyed && !closing
      ensures pushed == [] && written == [] && errors == []
    {
      this.streamName := streamName;
      this.credentials := CredentialsOf(password, username);
      this.stringify := stringify;
      socket := Connecting;
      autoReconnect := true;
      awaitingFirstData := true;
      pending := [];
      destroyed := false;
      closing := false;
      pushed := [];
      written := [];
      errors := [];
    }

    /**
     * Writing an object: held back while the socket is connecting (or behind
     * an object already held back); otherwise its XADD encoding is pushed.
     */
    method Write(entries: Entries<J>)
      requires Valid() && !destroyed
      modifies this`pending, this`pushed
      ensures Valid()
      ensures old(socket == Connecting || pending != []) ==>
        pending == old(pending) + [entries] && pushed == old(pushed)
      ensures old(socket != Connecting && pending == []) ==>
        pending == [] && pushed == old(pushed) + [EncodeXadd(streamName, entries, stringify)]
    {
      if socket == Connecting || pending != [] {
        pending := pending + [entries];
        return;
      }
      pushed := pushed + [EncodeXadd(streamName, entries, stringify)];
    }

    /** The socket's `'connect'`: the pipe is attached and HELLO written. */
    method OnConnect()
      requires Valid() && socket == Connecting
      modifies this`socket, this`written
      ensures Valid() && socket == Open
      ensures written == old(written) + [Hello(credentials)]
    {
      socket := Open;
      written := written + [Hello(credentials)];
    }

    /**
     * A chunk from the socket. The first one on this socket announces
     * `'connect'`, which releases every held-back object in order; every chunk
     * is then tested for `-ERR`; and when `_destroy` is waiting, the socket is
     * destroyed.
     */
    method OnData(data: string)
      requires Valid() && (socket == Open || socket == Ended)
      modifies this`awaitingFirstData, this`pending, this`pushed, this`errors, this`socket, this`closing
      ensures Valid() && !awaitingFirstData && pending == []
      ensures pushed == old(pushed) + (if old(awaitingFirstData) then Encodings(streamName, old(pending), stringify) else [])
      ensures errors == old(errors) + (if ErrorReply(data).Some? then [ErrorReply(data).value] else [])
      ensures old(closing) ==> socket == Destroyed && !closing
      ensures !old(closing) ==> socket == old(socket) && !closing
    {
      if awaitingFirstData {
        AnnounceConnect();
      }
      if ErrorReply(data).Some? {
        errors := errors + [ErrorReply(data).value];
      }
      if closing {
        socket := Destroyed;
        closing := false;
      }
    }

    /** Emitting `'connect'` runs the held-back `_transform` calls one after the other. */
    method AnnounceConnect()
      requires Valid() && awaitingFirstData && (socket == Open || socket == Ended)
      modifies this`awaitingFirstData, this`pending, this`pushed
      ensures Valid() && !awaitingFirstData && pending == []
      ensures pushed == old(pushed) + Encodings(streamName, old(pending), stringify)
    {
      var batch := pending;
      var out: seq<string> := [];
      var i := 0;
      while i < |batch|
        invariant 0 <= i <= |batch|
        invariant out == Encodings(streamName, batch[..i], stringify)
        invariant pushed == old(pushed) && batch == old(pending)
      {
        EncodingsSnoc(streamName, batch, i, stringify);
        out := out + [EncodeXadd(streamName, batch[i], stringify)];
        i := i + 1;
      }
      assert batch[..|batch|] == batch;
      pushed := pushed + out;
      pending := [];
      awaitingFirstData := false;
    }

    /** The socket's `'end'`: a fresh connecting socket while `autoReconnect` is on. */
    method OnEnd()
      requires Valid() && (socket == Open || socket == Ended)
      modifies this`socket, this`awaitingFirstData
      ensures Valid()
      ensures old(autoReconnect) ==> socket == Connecting && awaitingFirstData
      ensures !old(autoReconnect) ==> socket == Ended && awaitingFirstData == old(awaitingFirstData)
    {
      if autoReconnect {
        socket := Connecting;
        awaitingFirstData := true;
      } else {
        socket := Ended;
      }
    }

    /**
     * `_destroy`: turns `autoReconnect` off; unless the socket is already
     * destroyed, ends a still writable socket with QUIT and waits for the
     * next chunk to destroy it.
     */
    method Destroy()
      requires Valid()
      modifies this`autoReconnect, this`destroyed, this`closing, this`socket, this`written
      ensures Valid() && !autoReconnect && destroyed
      ensures old(socket) == Connecting || old(socket) == Open ==>
        socket == Ended && written == old(written) + [Quit] && closing
      ensures old(socket) == Ended ==> socket == Ended && written == old(written) && closing
      ensures old(socket) == Destroyed ==> socket == Destroyed && written == old(written) && closing == old(closing)
    {
      autoReconnect := false;
      destroyed := true;
      if socket == Destroyed {
        return;
      }
      if socket == Connecting || socket == Open {
        written := written + [Quit];
        socket := Ended;
      }
      closing := true;
    }
  }
}
