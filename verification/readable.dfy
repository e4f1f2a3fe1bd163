/**
 * The consumer endpoint of resp3/readable.js: the inline commands it writes,
 * the parse of the `CLIENT ID` reply, the decoder that turns one
 * `XREADGROUP` reply into a record, and the `RedisReadableStream` object whose
 * socket, client id and `autoReconnect` flag its event handlers update.
 */
module Readable {
  import opened Text
  import opened Protocol

  // ---------------------------------------------------------------------------
  // Commands written by the consumer
  // ---------------------------------------------------------------------------

  const ClientIdRequest: string := "CLIENT ID\r\n"

  /** Creates the consumer group, and the stream if absent, starting at new entries. */
  function GroupCreate(streamName: string, consumerGroup: string): string
  {
    "XGROUP CREATE " + streamName + " " + consumerGroup + " $ MKSTREAM\r\n"
  }

  /** The blocking read of one new entry for this consumer, with no timeout. */
  function ReadRequest(consumerGroup: string, consumerName: string, streamName: string): string
  {
    "XREADGROUP GROUP " + consumerGroup + " " + consumerName
    + " BLOCK 0 COUNT 1 STREAMS " + streamName + " >\r\n"
  }

  /** Sent on a second connection to end this client's blocking read. */
  function Unblock(clientId: nat): string
  {
    "CLIENT UNBLOCK " + Decimal(clientId) + "\r\n"
  }

  lemma GroupCreateWords(streamName: string, consumerGroup: string)
    requires IsBareWord(streamName) && IsBareWord(consumerGroup)
    ensures IsInlineCommand(GroupCreate(streamName, consumerGroup),
                            ["XGROUP", "CREATE", streamName, consumerGroup, "$", "MKSTREAM"])
  {
    var words := ["XGROUP", "CREATE", streamName, consumerGroup, "$", "MKSTREAM"];
    JoinSixWords("XGROUP", "CREATE", streamName, consumerGroup, "$", "MKSTREAM");
    GroupCreateLiterals();
    GroupCreateRegroup("XGROUP", "CREATE", streamName, consumerGroup, "$", "MKSTREAM", " ", Crlf);
    assert forall i :: 0 <= i < |words| ==> IsBareWord(words[i]);
    InlineCommandIs(GroupCreate(streamName, consumerGroup), words);
  }

  /** Proof step: the literal pieces of the `XGROUP CREATE` template, and its keywords are bare. */
  lemma GroupCreateLiterals()
    ensures "XGROUP CREATE " == "XGROUP" + " " + "CREATE" + " "
    ensures " $ MKSTREAM\r\n" == " " + "$" + " " + "MKSTREAM" + Crlf
    ensures IsBareWord("XGROUP") && IsBareWord("CREATE") && IsBareWord("$") && IsBareWord("MKSTREAM")
  {
  }

  /** Proof step: regroups the concatenation of the `XGROUP CREATE` line. */
  lemma GroupCreateRegroup(x: string, c: string, n: string, g: string, d: string, m: string,
                           sp: string, crlf: string)
    ensures (x + sp + c + sp) + n + sp + g + (sp + d + sp + m + crlf)
         == x + sp + c + sp + n + sp + g + sp + d + sp + m + crlf
  {
  }

  /**
   * The read command asks for exactly one entry (`COUNT 1`), blocks without
   * timeout (`BLOCK 0`) and only for entries never delivered to the group (`>`).
   */
  lemma ReadRequestWords(consumerGroup: string, consumerName: string, streamName: string)
    requires IsBareWord(consumerGroup) && IsBareWord(consumerName) && IsBareWord(streamName)
    ensures IsInlineCommand(ReadRequest(consumerGroup, consumerName, streamName),
                            ["XREADGROUP", "GROUP", consumerGroup, consumerName]
                            + ["BLOCK", "0", "COUNT", "1", "STREAMS"] + [streamName, ">"])
  {
    var words := ["XREADGROUP", "GROUP", consumerGroup, consumerName]
                 + ["BLOCK", "0", "COUNT", "1", "STREAMS"] + [streamName, ">"];
    ReadRequestJoin(consumerGroup, consumerName, streamName);
    ReadRequestBare(consumerGroup, consumerName, streamName);
    InlineCommandIs(ReadRequest(consumerGroup, consumerName, streamName), words);
  }

  lemma ReadRequestJoin(consumerGroup: string, consumerName: string, streamName: string)
    ensures ReadRequest(consumerGroup, consumerName, streamName)
         == JoinWords(["XREADGROUP", "GROUP", consumerGroup, consumerName]
                      + ["BLOCK", "0", "COUNT", "1", "STREAMS"] + [streamName, ">"]) + Crlf
  {
    var head := ["XREADGROUP", "GROUP", consumerGroup, consumerName];
    var middle := ["BLOCK", "0", "COUNT", "1", "STREAMS"];
    var tail := [streamName, ">"];
    var h, m, t := JoinWords(head), JoinWords(middle), JoinWords(tail);
    ReadRequestHead(consumerGroup, consumerName);
    ReadRequestMiddle();
    ReadRequestSeparators();
    JoinWordsCons(streamName, [">"]);
    assert [streamName] + [">"] == tail;
    JoinWordsAppend(head, middle);
    JoinWordsAppend(head + middle, tail);
    Reassociate(h, m, streamName, " ", ">", Crlf);
  }

  /** Proof step: regroups the concatenation of the `XREADGROUP` line. */
  lemma Reassociate(h: string, m: string, n: string, sp: string, gt: string, crlf: string)
    ensures h + (sp + m + sp) + n + (sp + gt + crlf) == h + sp + m + sp + (n + sp + gt) + crlf
  {
  }

  /** Proof step: the literal separators of the `XREADGROUP` template. */
  lemma ReadRequestSeparators()
    ensures " BLOCK 0 COUNT 1 STREAMS " == " " + "BLOCK 0 COUNT 1 STREAMS" + " "
    ensures " >\r\n" == " " + ">" + Crlf
  {
  }

  lemma ReadRequestBare(consumerGroup: string, consumerName: string, streamName: string)
    requires IsBareWord(consumerGroup) && IsBareWord(consumerName) && IsBareWord(streamName)
    ensures var words := ["XREADGROUP", "GROUP", consumerGroup, consumerName]
                         + ["BLOCK", "0", "COUNT", "1", "STREAMS"] + [streamName, ">"];
      forall i :: 0 <= i < |words| ==> IsBareWord(words[i])
  {
    var head := ["XREADGROUP", "GROUP", consumerGroup, consumerName];
    var middle := ["BLOCK", "0", "COUNT", "1", "STREAMS"];
    var tail := [streamName, ">"];
    var words := head + middle + tail;
    KeywordsAreBare();
    forall i | 0 <= i < |words| ensures IsBareWord(words[i]) {
      if i < 4 { assert words[i] == head[i]; }
      else if i < 9 { assert words[i] == middle[i - 4]; }
      else { assert words[i] == tail[i - 9]; }
    }
  }

  /** Proof step: the keywords of the `XREADGROUP` command are bare words. */
  lemma KeywordsAreBare()
    ensures IsBareWord("XREADGROUP") && IsBareWord("GROUP") && IsBareWord("BLOCK")
    ensures IsBareWord("0") && IsBareWord("COUNT") && IsBareWord("1")
    ensures IsBareWord("STREAMS") && IsBareWord(">")
  {
  }

  lemma ReadRequestHead(consumerGroup: string, consumerName: string)
    ensures JoinWords(["XREADGROUP", "GROUP", consumerGroup, consumerName])
         == "XREADGROUP GROUP " + consumerGroup + " " + consumerName
  {
    var words := ["XREADGROUP", "GROUP", consumerGroup, consumerName];
    JoinWordsCons(consumerGroup, [consumerName]);
    JoinWordsCons("GROUP", words[2..]);
    JoinWordsCons("XREADGROUP", words[1..]);
    assert [consumerGroup] + [consumerName] == words[2..];
    assert ["GROUP"] + words[2..] == words[1..];
    assert ["XREADGROUP"] + words[1..] == words;
  }

  lemma ReadRequestMiddle()
    ensures JoinWords(["BLOCK", "0", "COUNT", "1", "STREAMS"]) == "BLOCK 0 COUNT 1 STREAMS"
  {
    JoinFiveWords("BLOCK", "0", "COUNT", "1", "STREAMS");
  }

  /**
   * `CLIENT UNBLOCK <id>` is one inline line whose last word is the id in
   * decimal, which reads back as the id.
   */
  lemma UnblockWords(clientId: nat)
    ensures IsInlineCommand(Unblock(clientId), ["CLIENT", "UNBLOCK", Decimal(clientId)])
    ensures IsDigits(Decimal(clientId)) && DigitsValue(Decimal(clientId)) == clientId
  {
    var n := Decimal(clientId);
    var words := ["CLIENT", "UNBLOCK", n];
    DecimalRoundTrip(clientId);
    assert IsBareWord(n) by {
      forall i | 0 <= i < |n| ensures n[i] != ' ' && n[i] != '\r' && n[i] != '\n' {
        assert IsDigit(n[i]);
      }
    }
    UnblockLiterals();
    assert words[1..] == ["UNBLOCK", n];
    JoinTwoWords("UNBLOCK", n);
    assert forall i :: 0 <= i < |words| ==> IsBareWord(words[i]);
    InlineCommandIs(Unblock(clientId), words);
  }

  /** Proof step: the literal pieces of the `CLIENT UNBLOCK` template, and its keywords are bare. */
  lemma UnblockLiterals()
    ensures "CLIENT UNBLOCK " == "CLIENT" + " " + "UNBLOCK" + " "
    ensures IsBareWord("CLIENT") && IsBareWord("UNBLOCK")
  {
  }


  // ---------------------------------------------------------------------------
  // The `CLIENT ID` reply: `parseInt(/^:(?<id>\d+)/.exec(reply)?.groups?.id, 10)`
  // ---------------------------------------------------------------------------

  /** The client id, or `None` for the `NaN` that any other reply yields. */
  function ParseClientId(reply: string): Option<nat>
  {
    if |reply| >= 2 && reply[0] == ':' && IsDigit(reply[1])
    then Some(DigitsValue(LeadingDigits(reply[1..])))
    else None
  }

  /**
   * A reply `:` followed by a run of digits, leading zeros allowed, and then
   * by a non-digit or nothing yields the value of those digits; in particular
   * `:<n>` yields `n`. Any reply that is not `:` followed by a digit yields no
   * id.
   */
  lemma ClientIdRoundTrip(n: nat, digits: string, rest: string, other: string)
    requires |rest| == 0 || !IsDigit(rest[0])
    ensures ParseClientId(":" + Decimal(n) + rest) == Some(n)
    ensures IsDigits(digits) ==> ParseClientId(":" + digits + rest) == Some(DigitsValue(digits))
    ensures ParseClientId(other).Some? <==> |other| >= 2 && other[0] == ':' && IsDigit(other[1])
    ensures |other| == 0 || other[0] != ':' ==> ParseClientId(other) == None
  {
    DecimalRoundTrip(n);
    ClientIdOfDigits(Decimal(n), rest);
    if IsDigits(digits) {
      ClientIdOfDigits(digits, rest);
    }
  }

  /** Proof step: `:` and a run of digits, then a non-digit or nothing. */
  lemma ClientIdOfDigits(digits: string, rest: string)
    requires IsDigits(digits)
    requires |rest| == 0 || !IsDigit(rest[0])
    ensures ParseClientId(":" + digits + rest) == Some(DigitsValue(digits))
  {
    var reply := ":" + digits + rest;
    assert reply[1..] == digits + rest;
    assert reply[1] == digits[0];
    LeadingDigitsOf(digits, rest);
  }

  // ---------------------------------------------------------------------------
  // Step 1 of the decoder: drop every `$<len>` line, checking the next line's length
  // ---------------------------------------------------------------------------

  /** Matches `/^\$(?<len>\d+)$/`. */
  predicate IsBlobMarker(line: string)
  {
    |line| >= 2 && line[0] == '$' && IsDigits(line[1..])
  }

  function DeclaredLength(marker: string): nat
    requires IsBlobMarker(marker)
  {
    DigitsValue(marker[1..])
  }

  /** The complaint `Wrong length of string <line>, expected <declared>`. */
  datatype LengthError = LengthError(line: string, declared: string)

  /**
   * What the filter produces: the kept lines, the complaints emitted while
   * filtering, and whether it threw because a marker was the last line (its
   * `arr[i + 1]` is then `undefined`, and reading `.length` of it throws).
   */
  datatype Filtered = Filtered(kept: seq<string>, errors: seq<LengthError>, threw: bool)

  /**
   * `lines.filter(...)` with the marker test: each line is judged on its own,
   * and a marker looks at the line right after it in the unfiltered list.
   */
  function DropMarkers(lines: seq<string>): Filtered
    decreases |lines|
  {
    if |lines| == 0 then Filtered([], [], false)
    else if !IsBlobMarker(lines[0]) then
      var rest := DropMarkers(lines[1..]);
      Filtered([lines[0]] + rest.kept, rest.errors, rest.threw)
    else if |lines| == 1 then Filtered([], [], true)
    else
      var rest := DropMarkers(lines[1..]);
      var here := if Mismatch(lines, 0) then [LengthError(lines[1], lines[0][1..])] else [];
      Filtered(rest.kept, here + rest.errors, rest.threw)
  }

  /** Reference definition: the lines that are not markers, in order. */
  function NonMarkers(lines: seq<string>): seq<string>
    decreases |lines|
  {
    if |lines| == 0 then []
    else (if IsBlobMarker(lines[0]) then [] else [lines[0]]) + NonMarkers(lines[1..])
  }

  /** The marker at `j` declares a length its next line does not have. */
  predicate Mismatch(lines: seq<string>, j: int)
  {
    0 <= j < |lines| - 1 && IsBlobMarker(lines[j]) && Utf16Length(lines[j + 1]) != DeclaredLength(lines[j])
  }

  /**
   * The filter keeps exactly the non-marker lines in order, throws exactly
   * when the last line is a marker, and complains about a marker exactly
   * when its next line's JavaScript length differs from the declared one.
   */
  lemma DropMarkersSpec(lines: seq<string>)
    ensures var r := DropMarkers(lines);
      && (r.threw <==> |lines| > 0 && IsBlobMarker(lines[|lines| - 1]))
      && (!r.threw ==> r.kept == NonMarkers(lines))
      && (r.errors == [] <==> forall j :: !Mismatch(lines, j))
      && (forall j :: Mismatch(lines, j) ==> LengthError(lines[j + 1], lines[j][1..]) in r.errors)
      && (forall e :: e in r.errors ==>
            exists j :: Mismatch(lines, j) && e == LengthError(lines[j + 1], lines[j][1..]))
      && r.errors == Complaints(lines, MismatchesFrom(lines, 0))
  {
    var errors := DropMarkers(lines).errors;
    DropMarkersInOrder(lines);
    DropMarkersThrows(lines);
    DropMarkersKeeps(lines);
    DropMarkersErrors(lines);
    if errors != [] {
      assert errors[0] in errors;
    }
  }

  lemma {:induction false} DropMarkersThrows(lines: seq<string>)
    ensures DropMarkers(lines).threw <==> |lines| > 0 && IsBlobMarker(lines[|lines| - 1])
    decreases |lines|
  {
    if |lines| > 1 {
      DropMarkersThrows(lines[1..]);
      assert lines[1..][|lines| - 2] == lines[|lines| - 1];
    }
  }

  lemma {:induction false} DropMarkersKeeps(lines: seq<string>)
    ensures !DropMarkers(lines).threw ==> DropMarkers(lines).kept == NonMarkers(lines)
    decreases |lines|
  {
    if |lines| > 0 {
      DropMarkersKeeps(lines[1..]);
    }
  }

  /** Dropping the first line shifts every mismatch down by one. */
  lemma MismatchShift(lines: seq<string>)
    requires |lines| > 0
    ensures forall j :: 0 <= j ==> (Mismatch(lines[1..], j) <==> Mismatch(lines, j + 1))
  {
    var tail := lines[1..];
    forall j | 0 <= j ensures Mismatch(tail, j) <==> Mismatch(lines, j + 1) {
      if 0 <= j < |tail| - 1 {
        assert tail[j] == lines[j + 1] && tail[j + 1] == lines[j + 2];
      }
    }
  }

  /** The complaints of one step: about the first line, then about the rest. */
  lemma DropMarkersErrorsStep(lines: seq<string>)
    requires |lines| > 1
    ensures var here := if Mismatch(lines, 0) then [LengthError(lines[1], lines[0][1..])] else [];
      DropMarkers(lines).errors == here + DropMarkers(lines[1..]).errors
  {
    if !IsBlobMarker(lines[0]) {
      assert !Mismatch(lines, 0);
    }
  }

  lemma DropMarkersErrors(lines: seq<string>)
    ensures var errors := DropMarkers(lines).errors;
      && (forall j :: Mismatch(lines, j) ==> LengthError(lines[j + 1], lines[j][1..]) in errors)
      && (forall e :: e in errors ==>
            exists j :: Mismatch(lines, j) && e == LengthError(lines[j + 1], lines[j][1..]))
  {
    DropMarkersComplete(lines);
    DropMarkersSound(lines);
  }

  lemma {:induction false} DropMarkersComplete(lines: seq<string>)
    ensures forall j :: Mismatch(lines, j) ==>
      LengthError(lines[j + 1], lines[j][1..]) in DropMarkers(lines).errors
    decreases |lines|
  {
    if |lines| > 1 {
      var tail := lines[1..];
      DropMarkersComplete(tail);
      MismatchShift(lines);
      DropMarkersErrorsStep(lines);
      forall j | Mismatch(lines, j)
        ensures LengthError(lines[j + 1], lines[j][1..]) in DropMarkers(lines).errors
      {
        if j > 0 {
          assert Mismatch(tail, j - 1);
          assert tail[j] == lines[j + 1] && tail[j - 1] == lines[j];
        }
      }
    }
  }

  lemma {:induction false} DropMarkersSound(lines: seq<string>)
    ensures forall e :: e in DropMarkers(lines).errors ==>
      exists j :: Mismatch(lines, j) && e == LengthError(lines[j + 1], lines[j][1..])
    decreases |lines|
  {
    if |lines| > 1 {
      var tail := lines[1..];
      DropMarkersSound(tail);
      MismatchShift(lines);
      DropMarkersErrorsStep(lines);
      forall e | e in DropMarkers(lines).errors
        ensures exists j :: Mismatch(lines, j) && e == LengthError(lines[j + 1], lines[j][1..])
      {
        if e in DropMarkers(tail).errors {
          var j :| Mismatch(tail, j) && e == LengthError(tail[j + 1], tail[j][1..]);
          assert Mismatch(lines, j + 1);
          assert tail[j + 1] == lines[j + 2] && tail[j] == lines[j + 1];
        } else {
          assert Mismatch(lines, 0);
        }
      }
    }
  }

  /**
   * Reference definition: the positions from `i` on of the markers whose
   * next line has another length, in increasing order.
   */
  function MismatchesFrom(lines: seq<string>, i: nat): (js: seq<nat>)
    ensures forall k :: 0 <= k < |js| ==> i <= js[k] && Mismatch(lines, js[k])
    decreases |lines| - i
  {
    if i >= |lines| then []
    else (if Mismatch(lines, i) then [i] else []) + MismatchesFrom(lines, i + 1)
  }

  /** The complaint about the marker at `j`. */
  function Complaint(lines: seq<string>, j: nat): LengthError
    requires Mismatch(lines, j)
  {
    LengthError(lines[j + 1], lines[j][1..])
  }

  /** The complaint about each of the positions `js`, in their order. */
  function Complaints(lines: seq<string>, js: seq<nat>): (errors: seq<LengthError>)
    requires forall k :: 0 <= k < |js| ==> Mismatch(lines, js[k])
    ensures |errors| == |js|
    ensures forall k :: 0 <= k < |js| ==> errors[k] == Complaint(lines, js[k])
    decreases |js|
  {
    if |js| == 0 then [] else [Complaint(lines, js[0])] + Complaints(lines, js[1..])
  }

  predicate Increasing(js: seq<nat>)
  {
    forall a, b :: 0 <= a < b < |js| ==> js[a] < js[b]
  }

  /** The enumeration is strictly increasing. */
  lemma {:induction false} MismatchesFromIncrease(lines: seq<string>, i: nat)
    ensures Increasing(MismatchesFrom(lines, i))
    decreases |lines| - i
  {
    if i < |lines| {
      MismatchesFromIncrease(lines, i + 1);
      var rest := MismatchesFrom(lines, i + 1);
      var js := MismatchesFrom(lines, i);
      if Mismatch(lines, i) {
        assert js == [i] + rest;
        forall a, b | 0 <= a < b < |js| ensures js[a] < js[b] {
          assert js[b] == rest[b - 1] && i + 1 <= rest[b - 1];
          if a == 0 {
            assert js[a] == i;
          } else {
            assert js[a] == rest[a - 1] && rest[a - 1] < rest[b - 1];
          }
        }
      } else {
        assert js == rest;
      }
    }
  }

  /** The enumeration holds exactly the mismatches from `i` on. */
  lemma {:induction false} MismatchesFromComplete(lines: seq<string>, i: nat)
    ensures forall j :: i <= j && Mismatch(lines, j) <==> j in MismatchesFrom(lines, i)
    decreases |lines| - i
  {
    if i < |lines| {
      MismatchesFromComplete(lines, i + 1);
      var rest := MismatchesFrom(lines, i + 1);
      var here: seq<nat> := if Mismatch(lines, i) then [i] else [];
      assert MismatchesFrom(lines, i) == here + rest;
      forall j ensures i <= j && Mismatch(lines, j) <==> j in here + rest {
        assert j in here + rest <==> j in here || j in rest;
        if j == i {
          assert j !in rest;
        }
      }
    }
  }

  /**
   * The complaints come one per mismatching marker, in the order of the
   * markers in the chunk.
   */
  lemma DropMarkersInOrder(lines: seq<string>)
    ensures var js := MismatchesFrom(lines, 0);
      && Increasing(js)
      && (forall j :: 0 <= j && Mismatch(lines, j) <==> j in js)
      && DropMarkers(lines).errors == Complaints(lines, js)
  {
    MismatchesFromIncrease(lines, 0);
    MismatchesFromComplete(lines, 0);
    DropMarkersErrorsFrom(lines, 0);
    assert lines[0..] == lines;
  }

  /** Proof step: the complaints about the lines from `i` on. */
  lemma {:induction false} DropMarkersErrorsFrom(lines: seq<string>, i: nat)
    requires i <= |lines|
    ensures DropMarkers(lines[i..]).errors == Complaints(lines, MismatchesFrom(lines, i))
    decreases |lines| - i
  {
    var suffix := lines[i..];
    if i + 1 < |lines| {
      DropMarkersErrorsFrom(lines, i + 1);
      DropMarkersErrorsStep(suffix);
      assert suffix[1..] == lines[i + 1..];
      assert suffix[0] == lines[i] && suffix[1] == lines[i + 1];
      assert Mismatch(suffix, 0) <==> Mismatch(lines, i);
      ComplaintsStep(lines, i);
    } else if i + 1 == |lines| {
      assert !Mismatch(lines, i);
      assert MismatchesFrom(lines, i) == [];
    }
  }

  /** Proof step: the complaints from `i` on are the one about `i`, if any, then the rest. */
  lemma ComplaintsStep(lines: seq<string>, i: nat)
    requires i + 1 < |lines|
    ensures var here := if Mismatch(lines, i) then [LengthError(lines[i + 1], lines[i][1..])] else [];
      Complaints(lines, MismatchesFrom(lines, i)) == here + Complaints(lines, MismatchesFrom(lines, i + 1))
  {
    var rest := MismatchesFrom(lines, i + 1);
    if Mismatch(lines, i) {
      var js := [i] + rest;
      assert MismatchesFrom(lines, i) == js;
      assert js[1..] == rest;
    }
  }

  /** A chunk that ends with CR LF has an empty last line, so the filter never throws. */
  lemma TerminatedChunkNeverThrows(body: string)
    ensures !DropMarkers(Split(body + Crlf)).threw
  {
    SplitAppendCrlf(body);
    var lines := Split(body + Crlf);
    assert lines[|lines| - 1] == "";
    DropMarkersSpec(lines);
  }

  // ---------------------------------------------------------------------------
  // Step 2: the fixed-offset shape test (readable.js:160-162)
  // ---------------------------------------------------------------------------

  /** Matches `/^\*(?<len>\d+)$/` and returns the digits. */
  function ArrayCount(line: string): Option<string>
  {
    if |line| >= 2 && line[0] == '*' && IsDigits(line[1..]) then Some(line[1..]) else None
  }

  /**
   * Line 5 is an array header whose count is above `'0'` as a string, and
   * line 1 is this stream's name.
   */
  predicate IsOurEntry(chunk: seq<string>, streamName: string)
  {
    && |chunk| > 5
    && ArrayCount(chunk[5]).Some?
    && LexLess("0", ArrayCount(chunk[5]).value)
    && chunk[1] == streamName
  }

  /** `chunk.slice(6, 6 + len)`: JavaScript clamps the end to the length. */
  function FieldList(chunk: seq<string>): seq<string>
    requires |chunk| > 5 && ArrayCount(chunk[5]).Some?
  {
    var count := DigitsValue(ArrayCount(chunk[5]).value);
    chunk[6..if 6 + count <= |chunk| then 6 + count else |chunk|]
  }

  /**
   * A chunk is taken when line 1 is this stream's name and line 5 is an array
   * header whose count is any run of digits but `0` itself (so `*00` is taken
   * although it counts nothing). Its field list is the lines after the header,
   * as many as the header counts or as many as there are.
   */
  lemma OurEntryIff(chunk: seq<string>, streamName: string)
    ensures IsOurEntry(chunk, streamName) <==>
      && |chunk| > 5 && chunk[1] == streamName
      && ArrayCount(chunk[5]).Some? && ArrayCount(chunk[5]).value != "0"
    ensures IsOurEntry(chunk, streamName) ==>
      var n, list := DigitsValue(ArrayCount(chunk[5]).value), FieldList(chunk);
      && |list| == (if 6 + n <= |chunk| then n else |chunk| - 6)
      && forall k :: 0 <= k < |list| ==> list[k] == chunk[6 + k]
  {
    if |chunk| > 5 && ArrayCount(chunk[5]).Some? {
      DigitsAboveZero(ArrayCount(chunk[5]).value);
    }
  }

  // ---------------------------------------------------------------------------
  // Step 3: pair the flat field list (the `reduce` of readable.js:168-171)
  // ---------------------------------------------------------------------------

  /** A key and the value after it; the last key of an odd list has none. */
  datatype Pair = Pair(key: string, value: Option<string>)

  /** `array.slice(index, index + 2)` destructured as `[k, v]`. */
  function PairAt(list: seq<string>, index: nat): Pair
    requires index < |list|
  {
    Pair(list[index], if index + 1 < |list| then Some(list[index + 1]) else None)
  }

  /** The pairs of a flat list: one per even index, in order. */
  function Pairs(list: seq<string>): (pairs: seq<Pair>)
    ensures |pairs| == (|list| + 1) / 2
    ensures forall k :: 0 <= k < |pairs| ==> pairs[k] == PairAt(list, 2 * k)
    decreases |list|
  {
    if |list| == 0 then []
    else if |list| == 1 then [Pair(list[0], None)]
    else [Pair(list[0], Some(list[1]))] + Pairs(list[2..])
  }

  /** The accumulating loop of the `reduce`: a pair is pushed at every even index. */
  method PairUp(list: seq<string>) returns (pairs: seq<Pair>)
    ensures pairs == Pairs(list)
  {
    pairs := [];
    var index := 0;
    while index < |list|
      invariant 0 <= index <= |list|
      invariant |pairs| == (index + 1) / 2
      invariant forall k :: 0 <= k < |pairs| ==> pairs[k] == PairAt(list, 2 * k)
    {
      if index % 2 == 0 {
        pairs := pairs + [PairAt(list, index)];
      }
      index := index + 1;
    }
  }

  // ---------------------------------------------------------------------------
  // Step 4: opportunistic JSON decoding of values (readable.js:173-179)
  // ---------------------------------------------------------------------------

  /** A value of the record: the raw string, its JSON parse, or `undefined`. */
  datatype FieldValue<J> = Raw(text: string) | Parsed(json: J) | Undefined

  type Record<J> = map<string, FieldValue<J>>

  /** `\s` of JavaScript regular expressions. */
  predicate IsJsWhitespace(c: char)
  {
    || c == '\t' || c == '\n' || c == '\U{000B}' || c == '\U{000C}' || c == '\r' || c == ' '
    || c == '\U{00A0}' || c == '\U{1680}' || ('\U{2000}' <= c <= '\U{200A}')
    || c == '\U{2028}' || c == '\U{2029}' || c == '\U{202F}' || c == '\U{205F}'
    || c == '\U{3000}' || c == '\U{FEFF}'
  }

  /** `/^\s*(\{|\[)/.test(v)`. */
  predicate LooksLikeJson(v: string)
    decreases |v|
  {
    |v| > 0 && (v[0] == '{' || v[0] == '[' || (IsJsWhitespace(v[0]) && LooksLikeJson(v[1..])))
  }

  /** The test holds exactly when the first non-blank character opens an object or array. */
  lemma {:induction false} LooksLikeJsonIff(v: string)
    ensures LooksLikeJson(v) <==>
      exists k :: 0 <= k < |v| && (v[k] == '{' || v[k] == '[')
                  && forall i :: 0 <= i < k ==> IsJsWhitespace(v[i])
    decreases |v|
  {
    if |v| > 0 {
      LooksLikeJsonIff(v[1..]);
      if LooksLikeJson(v) && v[0] != '{' && v[0] != '[' {
        var k :| 0 <= k < |v| - 1 && (v[1..][k] == '{' || v[1..][k] == '[')
                 && forall i :: 0 <= i < k ==> IsJsWhitespace(v[1..][i]);
        assert forall i :: 0 <= i < k + 1 ==> IsJsWhitespace(v[i]) by {
          forall i | 0 <= i < k + 1 ensures IsJsWhitespace(v[i]) {
            if i > 0 { assert v[i] == v[1..][i - 1]; }
          }
        }
      }
      if exists k :: 0 <= k < |v| && (v[k] == '{' || v[k] == '[')
                     && forall i :: 0 <= i < k ==> IsJsWhitespace(v[i]) {
        var k :| 0 <= k < |v| && (v[k] == '{' || v[k] == '[')
                 && forall i :: 0 <= i < k ==> IsJsWhitespace(v[i]);
        if k > 0 {
          assert IsJsWhitespace(v[0]);
          assert v[1..][k - 1] == v[k];
          assert forall i :: 0 <= i < k - 1 ==> IsJsWhitespace(v[1..][i]) by {
            forall i | 0 <= i < k - 1 ensures IsJsWhitespace(v[1..][i]) {
              assert v[1..][i] == v[i + 1];
            }
          }
        }
      }
    }
  }

  /**
   * A value that looks like JSON and parses is replaced by the parse; any other
   * value, including one whose parse fails, stays the raw string; a missing
   * value stays `undefined`.
   */
  function TryDecode<J>(parse: string -> Option<J>, value: Option<string>): FieldValue<J>
  {
    match value
    case None => Undefined
    case Some(v) => if LooksLikeJson(v) && parse(v).Some? then Parsed(parse(v).value) else Raw(v)
  }

  /**
   * A missing value stays `undefined`. A value is replaced by its parse
   * exactly when its first character that is not whitespace opens an object
   * or an array and the parse succeeds; otherwise it stays the same string.
   */
  lemma TryDecodeSpec<J>(parse: string -> Option<J>, value: Option<string>)
    ensures TryDecode(parse, value).Undefined? <==> value.None?
    ensures value.Some? ==>
      var v := value.value;
      && (TryDecode(parse, value).Parsed? <==>
            && (exists k :: 0 <= k < |v| && (v[k] == '{' || v[k] == '[')
                            && forall i :: 0 <= i < k ==> IsJsWhitespace(v[i]))
            && parse(v).Some?)
      && (TryDecode(parse, value).Parsed? ==> parse(v) == Some(TryDecode(parse, value).json))
      && (TryDecode(parse, value).Raw? ==> TryDecode(parse, value).text == v)
  {
    if value.Some? {
      LooksLikeJsonIff(value.value);
    }
  }

  // ---------------------------------------------------------------------------
  // Step 5: `Object.fromEntries`
  // ---------------------------------------------------------------------------

  /** Entries are added in order, so a later duplicate key overwrites an earlier one. */
  function FromEntries<V>(entries: seq<(string, V)>): map<string, V>
    decreases |entries|
  {
    if |entries| == 0 then map[]
    else
      var last := entries[|entries| - 1];
      FromEntries(entries[..|entries| - 1])[last.0 := last.1]
  }

  /** The keys are those of the entries, and each maps to the value of its last entry. */
  lemma FromEntriesLastWins<V>(entries: seq<(string, V)>)
    ensures forall key :: key in FromEntries(entries) <==>
      exists i :: 0 <= i < |entries| && entries[i].0 == key
    ensures forall i :: 0 <= i < |entries| && (forall j :: i < j < |entries| ==> entries[j].0 != entries[i].0) ==>
      entries[i].0 in FromEntries(entries) && FromEntries(entries)[entries[i].0] == entries[i].1
  {
    FromEntriesKeys(entries);
    FromEntriesValues(entries);
  }

  lemma {:induction false} FromEntriesKeys<V>(entries: seq<(string, V)>)
    ensures forall key :: key in FromEntries(entries) <==>
      exists i :: 0 <= i < |entries| && entries[i].0 == key
    decreases |entries|
  {
    if |entries| > 0 {
      var init := entries[..|entries| - 1];
      FromEntriesKeys(init);
      assert forall i :: 0 <= i < |init| ==> init[i] == entries[i];
    }
  }

  lemma {:induction false} FromEntriesValues<V>(entries: seq<(string, V)>)
    ensures forall i :: 0 <= i < |entries| && (forall j :: i < j < |entries| ==> entries[j].0 != entries[i].0) ==>
      entries[i].0 in FromEntries(entries) && FromEntries(entries)[entries[i].0] == entries[i].1
    decreases |entries|
  {
    if |entries| > 0 {
      var init := entries[..|entries| - 1];
      FromEntriesValues(init);
      assert forall i :: 0 <= i < |init| ==> init[i] == entries[i];
    }
  }

  /** The record: each pair's key with its value passed through `TryDecode`. */
  function ToRecord<J>(parse: string -> Option<J>, pairs: seq<Pair>): Record<J>
  {
    FromEntries(RecordEntries(parse, pairs))
  }

  function RecordEntries<J>(parse: string -> Option<J>, pairs: seq<Pair>): (entries: seq<(string, FieldValue<J>)>)
    ensures |entries| == |pairs|
    ensures forall k :: 0 <= k < |pairs| ==> entries[k] == (pairs[k].key, TryDecode(parse, pairs[k].value))
  {
    seq(|pairs|, k requires 0 <= k < |pairs| => (pairs[k].key, TryDecode(parse, pairs[k].value)))
  }

  /**
   * Each key at an even index of the field list, when no later even index
   * repeats it, maps to its decoded next value; the keys are exactly those.
   */
  lemma RecordFromFieldList<J>(parse: string -> Option<J>, list: seq<string>)
    ensures var r := ToRecord(parse, Pairs(list));
      && (forall key :: key in r <==> exists k :: 0 <= 2 * k < |list| && list[2 * k] == key)
      && forall k :: 0 <= 2 * k < |list| && (forall m :: k < m && 2 * m < |list| ==> list[2 * m] != list[2 * k]) ==>
           list[2 * k] in r && r[list[2 * k]] == TryDecode(parse, PairAt(list, 2 * k).value)
  {
    RecordKeys(parse, list);
    RecordValues(parse, list);
  }

  lemma RecordKeys<J>(parse: string -> Option<J>, list: seq<string>)
    ensures var r := ToRecord(parse, Pairs(list));
      forall key :: key in r <==> exists k :: 0 <= 2 * k < |list| && list[2 * k] == key
  {
    var entries := RecordEntries(parse, Pairs(list));
    var r := FromEntries(entries);
    assert |entries| == (|list| + 1) / 2;
    assert forall k :: 0 <= k < |entries| ==> entries[k].0 == list[2 * k];
    FromEntriesKeys(entries);
    forall key ensures key in r <==> exists k :: 0 <= 2 * k < |list| && list[2 * k] == key {
      if exists k :: 0 <= 2 * k < |list| && list[2 * k] == key {
        var k :| 0 <= 2 * k < |list| && list[2 * k] == key;
        assert entries[k].0 == key;
      }
      if key in r {
        var i :| 0 <= i < |entries| && entries[i].0 == key;
        assert list[2 * i] == key;
      }
    }
  }

  lemma RecordValues<J>(parse: string -> Option<J>, list: seq<string>)
    ensures var r := ToRecord(parse, Pairs(list));
      forall k :: 0 <= 2 * k < |list| && (forall m :: k < m && 2 * m < |list| ==> list[2 * m] != list[2 * k]) ==>
        list[2 * k] in r && r[list[2 * k]] == TryDecode(parse, PairAt(list, 2 * k).value)
  {
    var entries := RecordEntries(parse, Pairs(list));
    var r := FromEntries(entries);
    assert |entries| == (|list| + 1) / 2;
    assert forall k :: 0 <= k < |entries| ==> entries[k].0 == list[2 * k];
    FromEntriesValues(entries);
    forall k | 0 <= 2 * k < |list| && (forall m :: k < m && 2 * m < |list| ==> list[2 * m] != list[2 * k])
      ensures list[2 * k] in r && r[list[2 * k]] == TryDecode(parse, PairAt(list, 2 * k).value)
    {
      assert entries[k].0 == list[2 * k];
      forall j | k < j < |entries| ensures entries[j].0 != entries[k].0 {
        assert entries[j].0 == list[2 * j];
      }
    }
  }

  // ---------------------------------------------------------------------------
  // The whole decoder for one chunk
  // ---------------------------------------------------------------------------

  /** What one chunk yields: a record or none, the length complaints, and whether it threw. */
  datatype Decoded<J> = Decoded(record: Option<Record<J>>, errors: seq<LengthError>, threw: bool)

  function Decode<J>(data: string, streamName: string, parse: string -> Option<J>): Decoded<J>
  {
    var f := DropMarkers(Split(data));
    if f.threw then Decoded(None, f.errors, true)
    else if IsOurEntry(f.kept, streamName)
    then Decoded(Some(ToRecord(parse, Pairs(FieldList(f.kept)))), f.errors, false)
    else Decoded(None, f.errors, false)
  }

  /**
   * The decoder throws, and then yields no record, exactly when the chunk's
   * last line is a marker. Otherwise a record comes out exactly when the
   * lines that are not markers have the shape of an entry of this stream, and
   * it is built from those lines' field list.
   */
  lemma DecodeSpec<J>(data: string, streamName: string, parse: string -> Option<J>)
    ensures var lines, d := Split(data), Decode(data, streamName, parse);
      && (d.threw <==> IsBlobMarker(lines[|lines| - 1]))
      && (d.threw ==> d.record == None)
      && (!d.threw ==> (d.record.Some? <==> IsOurEntry(NonMarkers(lines), streamName)))
      && (!d.threw && IsOurEntry(NonMarkers(lines), streamName) ==>
            d.record == Some(ToRecord(parse, Pairs(FieldList(NonMarkers(lines))))))
  {
    DropMarkersThrows(Split(data));
    DropMarkersKeeps(Split(data));
  }

  /** Proof step: unfolds `Decode` into the filter's result, for the transform's proof. */
  lemma DecodeSteps<J>(data: string, streamName: string, parse: string -> Option<J>)
    ensures var f, d := DropMarkers(Split(data)), Decode(data, streamName, parse);
      && d.errors == f.errors && d.threw == f.threw
      && (f.threw ==> d.record == None)
      && (!f.threw && IsOurEntry(f.kept, streamName) ==>
            d.record == Some(ToRecord(parse, Pairs(FieldList(f.kept)))))
      && (!f.threw && !IsOurEntry(f.kept, streamName) ==> d.record == None)
  {
  }

  // ---------------------------------------------------------------------------
  // The stream object
  // ---------------------------------------------------------------------------

  /** Which `once` handler of the connection sequence is armed. */
  datatype Phase = AwaitReady | AwaitHello | AwaitClientId | AwaitGroupReply | Streaming

  /** What the object emits as `'error'`. */
  datatype ConsumerError =
    | ReplyError(message: string)
    | WrongLength(line: string, declared: string)

  function ReplyErrors(data: string): seq<ConsumerError>
  {
    if ErrorReply(data).Some? then [ReplyError(ErrorReply(data).value)] else []
  }

  function LengthErrors(errors: seq<LengthError>): seq<ConsumerError>
  {
    seq(|errors|, i requires 0 <= i < |errors| => WrongLength(errors[i].line, errors[i].declared))
  }

  function Repeat(s: string, n: nat): seq<string>
  {
    seq(n, _ => s)
  }

  /** Proof step: unfolds `Repeat` for the two counts the group reply can produce. */
  lemma RepeatOnceTwice(s: string)
    ensures Repeat(s, 1) == [s] && Repeat(s, 2) == [s] + [s]
  {
  }

  class ConsumerStream<J> {
    const streamName: string
    const consumerGroup: string
    const consumerName: string
    const credentials: Credentials
    /** `JSON.parse`, `None` where it throws. */
    const parse: string -> Option<J>

    var socket: Socket
    var phase: Phase
    /** `None` stands for the `undefined` or `NaN` that is not an integer. */
    var clientId: Option<nat>
    var autoReconnect: bool
    /** Listeners `once('connect', () => this._readMore())` still waiting. */
    var deferredReads: nat
    /** Whether `destroy()` was called on the stream itself. */
    var destroyed: bool
    /** Whether `_destroy` is waiting for its race to settle. */
    var closing: bool
    /**
     * Whether a call of `_transform` threw: the write it served never
     * completes, so the stream never calls `_transform` again.
     */
    var wedged: bool

    /** Everything written on the primary socket, in order. */
    var sent: seq<string>
    /** Everything pushed to readers, in order. */
    var records: seq<Record<J>>
    var errors: seq<ConsumerError>
    /** How many times the transform callback was invoked. */
    var callbacks: nat

    ghost predicate Valid()
      reads this
    {
      && (socket == Connecting ==> phase == AwaitReady)
      && (phase == AwaitReady ==> socket == Connecting || socket == Destroyed)
      && (deferredReads > 0 ==> phase == AwaitReady || phase == AwaitHello || phase == AwaitClientId)
      && (closing ==> destroyed)
      && (destroyed ==> !autoReconnect)
      && (socket == Destroyed ==> !autoReconnect)
    }

    function ReadRequestOf(): string
      reads this
    {
      ReadRequest(consumerGroup, consumerName, streamName)
    }

    constructor(streamName: string, consumerGroup: string, consumerName: string,
                password: Option<string>, username: string, parse: string -> Option<J>)
      ensures Valid()
      ensures this.streamName == streamName && this.consumerGroup == consumerGroup
      ensures this.consumerName == consumerName && this.parse == parse
      ensures credentials == CredentialsOf(password, username)
      ensures socket == Connecting && phase == AwaitReady && clientId == None
      ensures autoReconnect && deferredReads == 0 && !destroyed && !closing && !wedged
      ensures sent == [] && records == [] && errors == [] && callbacks == 0
    {
      this.streamName := streamName;
      this.consumerGroup := consumerGroup;
      this.consumerName := consumerName;
      this.credentials := CredentialsOf(password, username);
      this.parse := parse;
      socket := Connecting;
      phase := AwaitReady;
      clientId := None;
      autoReconnect := true;
      deferredReads := 0;
      destroyed := false;
      closing := false;
      wedged := false;
      sent := [];
      records := [];
      errors := [];
      callbacks := 0;
    }

    /** The socket's `'ready'`: the handshake starts with HELLO. */
    method OnReady()
      requires Valid() && socket == Connecting
      modifies this`socket, this`phase, this`sent
      ensures Valid()
      ensures socket == Open && phase == AwaitHello
      ensures sent == old(sent) + [Hello(credentials)]
    {
      socket := Open;
      phase := AwaitHello;
      sent := sent + [Hello(credentials)];
    }

    /**
     * `_readMore`: nothing once `autoReconnect` is off; deferred until the next
     * `'connect'` while the socket is connecting; otherwise one read request.
     */
    method ReadMore()
      requires Valid()
      modifies this`sent, this`deferredReads
      ensures Valid()
      ensures !autoReconnect ==> sent == old(sent) && deferredReads == old(deferredReads)
      ensures autoReconnect && socket == Connecting ==>
        sent == old(sent) && deferredReads == old(deferredReads) + 1
      ensures autoReconnect && socket != Connecting ==>
        sent == old(sent) + [ReadRequestOf()] && deferredReads == old(deferredReads)
    {
      if !autoReconnect {
        return;
      }
      if socket == Connecting {
        deferredReads := deferredReads + 1;
        return;
      }
      sent := sent + [ReadRequestOf()];
    }

    /** Emitting `'connect'` runs every deferred `_readMore` listener once. */
    method EmitConnect()
      requires Valid() && socket == Open && phase == AwaitClientId
      modifies this`sent, this`deferredReads
      ensures Valid() && deferredReads == 0
      ensures sent == old(sent) + Repeat(ReadRequestOf(), if autoReconnect then old(deferredReads) else 0)
    {
      var listeners := deferredReads;
      deferredReads := 0;
      var i := 0;
      while i < listeners
        invariant 0 <= i <= listeners && deferredReads == 0
        invariant sent == old(sent) + Repeat(ReadRequestOf(), if autoReconnect then i else 0)
      {
        ReadMore();
        i := i + 1;
      }
    }

    /**
     * `_transform`: decode the chunk; push the record and ask for the next one
     * only when the reply has the expected shape; invoke the callback once.
     * When the filter throws, only the length complaints raised before the
     * throw are emitted, the callback is never invoked and the stream is
     * wedged.
     */
    method Transform(data: string)
      requires Valid() && !wedged && !destroyed
      modifies this`records, this`errors, this`callbacks, this`sent, this`deferredReads, this`wedged
      ensures Valid()
      ensures var d := Decode(data, streamName, parse);
        && wedged == d.threw
        && records == old(records) + (if d.record.Some? then [d.record.value] else [])
        && errors == old(errors) + LengthErrors(d.errors)
        && callbacks == old(callbacks) + (if d.threw then 0 else 1)
        && sent == old(sent) + (if d.record.Some? && autoReconnect && socket != Connecting
                                then [ReadRequestOf()] else [])
        && deferredReads == old(deferredReads) + (if d.record.Some? && autoReconnect && socket == Connecting
                                                  then 1 else 0)
    {
      var f := DropMarkers(Split(data));
      DecodeSteps(data, streamName, parse);
      errors := errors + LengthErrors(f.errors);
      if f.threw {
        wedged := true;
        return;
      }
      var chunk := f.kept;
      if IsOurEntry(chunk, streamName) {
        var pairs := PairUp(FieldList(chunk));
        PushAndReadMore(ToRecord(parse, pairs));
      } else {
        assert sent == old(sent) + [];
      }
      callbacks := callbacks + 1;
    }

    /**
     * A chunk written into the stream through the pipe: it reaches
     * `_transform` unless an earlier call threw or the stream was destroyed.
     */
    method OnPipedData(data: string)
      requires Valid()
      modifies this`records, this`errors, this`callbacks, this`sent, this`deferredReads, this`wedged
      ensures Valid()
      ensures var d, go := Decode(data, streamName, parse), !old(wedged) && !destroyed;
        && wedged == (old(wedged) || (go && d.threw))
        && records == old(records) + (if go && d.record.Some? then [d.record.value] else [])
        && errors == old(errors) + (if go then LengthErrors(d.errors) else [])
        && callbacks == old(callbacks) + (if go && !d.threw then 1 else 0)
        && sent == old(sent) + (if go && d.record.Some? && autoReconnect && socket != Connecting
                                then [ReadRequestOf()] else [])
        && deferredReads == old(deferredReads) + (if go && d.record.Some? && autoReconnect && socket == Connecting
                                                  then 1 else 0)
    {
      if !wedged && !destroyed {
        Transform(data);
      } else {
        assert records == old(records) + [] && errors == old(errors) + [] && sent == old(sent) + [];
      }
    }

    /** `this.push(obj)` followed by `this._readMore()`. */
    method PushAndReadMore(record: Record<J>)
      requires Valid()
      modifies this`records, this`sent, this`deferredReads
      ensures Valid() && records == old(records) + [record]
      ensures sent == old(sent) + (if autoReconnect && socket != Connecting then [ReadRequestOf()] else [])
      ensures deferredReads == old(deferredReads) + (if autoReconnect && socket == Connecting then 1 else 0)
    {
      records := records + [record];
      ReadMore();
    }

    /**
     * A chunk from the socket: every chunk is tested for `-ERR`; then the
     * armed handler of the connection sequence runs. The `CLIENT ID` reply
     * sets the client id, creates the group and announces `'connect'`; the
     * reply after that starts the reads; from then on chunks reach the
     * transform through the pipe.
     */
    method OnData(data: string)
      requires Valid() && socket == Open
      modifies this
      ensures Valid() && socket == Open && autoReconnect == old(autoReconnect)
      ensures destroyed == old(destroyed) && closing == old(closing)
      ensures old(phase) == AwaitHello ==>
        && phase == AwaitClientId && sent == old(sent) + [ClientIdRequest]
        && errors == old(errors) + ReplyErrors(data)
        && records == old(records) && clientId == old(clientId) && deferredReads == old(deferredReads)
        && callbacks == old(callbacks) && wedged == old(wedged)
      ensures old(phase) == AwaitClientId ==>
        && phase == AwaitGroupReply && clientId == ParseClientId(data)
        && sent == old(sent) + [GroupCreate(streamName, consumerGroup)]
                 + Repeat(ReadRequestOf(), if autoReconnect then old(deferredReads) else 0)
        && deferredReads == 0
        && errors == old(errors) + ReplyErrors(data) && records == old(records)
        && callbacks == old(callbacks) && wedged == old(wedged)
      ensures old(phase) == AwaitGroupReply ==>
        var d, go := Decode(data, streamName, parse), !old(wedged) && !destroyed;
        && phase == (if go && d.threw then AwaitGroupReply else Streaming)
        && clientId == old(clientId) && deferredReads == old(deferredReads)
        && wedged == (old(wedged) || (go && d.threw))
        && records == old(records) + (if go && d.record.Some? then [d.record.value] else [])
        && errors == old(errors) + ReplyErrors(data) + (if go then LengthErrors(d.errors) else [])
        && callbacks == old(callbacks) + (if go && !d.threw then 1 else 0)
        && sent == old(sent) + (if autoReconnect && !(go && d.threw)
                                then Repeat(ReadRequestOf(), if go && d.record.Some? then 2 else 1) else [])
      ensures old(phase) == Streaming ==>
        var d, go := Decode(data, streamName, parse), !old(wedged) && !destroyed;
        && phase == Streaming && clientId == old(clientId) && deferredReads == old(deferredReads)
        && wedged == (old(wedged) || (go && d.threw))
        && records == old(records) + (if go && d.record.Some? then [d.record.value] else [])
        && errors == old(errors) + ReplyErrors(data) + (if go then LengthErrors(d.errors) else [])
        && callbacks == old(callbacks) + (if go && !d.threw then 1 else 0)
        && sent == old(sent) + (if go && autoReconnect && d.record.Some? then [ReadRequestOf()] else [])
    {
      errors := errors + ReplyErrors(data);
      match phase {
        case AwaitReady =>
        case AwaitHello => OnHelloReply();
        case AwaitClientId => OnClientIdReply(data);
        case AwaitGroupReply => OnGroupReply(data);
        case Streaming => OnPipedData(data);
      }
    }

    /** The reply to HELLO: ask for the client id. */
    method OnHelloReply()
      requires Valid() && socket == Open && phase == AwaitHello
      modifies this`sent, this`phase
      ensures Valid() && phase == AwaitClientId && sent == old(sent) + [ClientIdRequest]
    {
      sent := sent + [ClientIdRequest];
      phase := AwaitClientId;
    }

    /**
     * The reply to `CLIENT ID`: keep the id, create the group, pipe the socket
     * into the transform and announce `'connect'`.
     */
    method OnClientIdReply(data: string)
      requires Valid() && socket == Open && phase == AwaitClientId
      modifies this`clientId, this`sent, this`deferredReads, this`phase
      ensures Valid() && phase == AwaitGroupReply && clientId == ParseClientId(data)
      ensures sent == old(sent) + [GroupCreate(streamName, consumerGroup)]
                      + Repeat(ReadRequestOf(), if autoReconnect then old(deferredReads) else 0)
      ensures deferredReads == 0
    {
      clientId := ParseClientId(data);
      sent := sent + [GroupCreate(streamName, consumerGroup)];
      EmitConnect();
      phase := AwaitGroupReply;
    }

    /**
     * The reply to `XGROUP CREATE` reaches the transform, through the pipe,
     * and then the `once('data')` listener that starts the reads. When the
     * transform throws, the exception leaves the socket's `'data'` emit before
     * that listener runs, so it stays armed for the next chunk.
     */
    method OnGroupReply(data: string)
      requires Valid() && socket == Open && phase == AwaitGroupReply
      modifies this`records, this`errors, this`callbacks, this`sent, this`deferredReads, this`wedged, this`phase
      ensures Valid() && deferredReads == old(deferredReads)
      ensures var d, go := Decode(data, streamName, parse), !old(wedged) && !destroyed;
        && wedged == (old(wedged) || (go && d.threw))
        && phase == (if go && d.threw then AwaitGroupReply else Streaming)
        && records == old(records) + (if go && d.record.Some? then [d.record.value] else [])
        && errors == old(errors) + (if go then LengthErrors(d.errors) else [])
        && callbacks == old(callbacks) + (if go && !d.threw then 1 else 0)
        && sent == old(sent) + (if autoReconnect && !(go && d.threw)
                                then Repeat(ReadRequestOf(), if go && d.record.Some? then 2 else 1) else [])
    {
      var wasWedged := wedged;
      OnPipedData(data);
      ArmedReadMore(wedged && !wasWedged);
      RepeatOnceTwice(ReadRequestOf());
    }

    /**
     * The group reply's `once('data')` listener: it is skipped, and stays
     * armed, when the transform threw on the same chunk; otherwise it runs
     * `_readMore` and is spent.
     */
    method ArmedReadMore(skipped: bool)
      requires Valid() && socket == Open && phase == AwaitGroupReply
      modifies this`sent, this`deferredReads, this`phase
      ensures Valid() && deferredReads == old(deferredReads)
      ensures phase == (if skipped then AwaitGroupReply else Streaming)
      ensures sent == old(sent) + (if autoReconnect && !skipped then [ReadRequestOf()] else [])
    {
      if skipped {
        assert sent == old(sent) + [];
        return;
      }
      ReadMore();
      phase := Streaming;
    }

    /** The socket's `'end'`: reconnect with a fresh socket only while `autoReconnect` is on. */
    method OnEnd()
      requires Valid() && socket == Open
      modifies this`socket, this`phase
      ensures Valid()
      ensures old(autoReconnect) ==> socket == Connecting && phase == AwaitReady
      ensures !old(autoReconnect) ==> socket == Ended && phase == old(phase)
    {
      if autoReconnect {
        socket := Connecting;
        phase := AwaitReady;
      } else {
        socket := Ended;
      }
    }

    /**
     * `destroy()`: a no-op on a stream already destroyed. Otherwise the stream
     * is marked destroyed and `_destroy` runs: it turns `autoReconnect` off;
     * unless the socket is already destroyed, it returns the `CLIENT UNBLOCK`
     * command for the second connection when the client id is an integer,
     * and starts waiting for the race that ends with QUIT.
     */
    method Destroy() returns (unblock: Option<string>)
      requires Valid()
      modifies this`autoReconnect, this`destroyed, this`closing
      ensures Valid() && !autoReconnect && destroyed
      ensures old(destroyed) ==> unblock == None && closing == old(closing)
      ensures !old(destroyed) ==>
        && unblock == (if socket != Destroyed && clientId.Some? then Some(Unblock(clientId.value)) else None)
        && closing == (socket != Destroyed)
    {
      if destroyed {
        return None;
      }
      destroyed := true;
      autoReconnect := false;
      if socket == Destroyed {
        return None;
      }
      unblock := if clientId.Some? then Some(Unblock(clientId.value)) else None;
      closing := true;
    }

    /**
     * The race of `_destroy` settled: QUIT is written on the socket, which
     * stays open until the server closes it; the stream's own `destroy()` is
     * already under way and does nothing more.
     */
    method FinishShutdown()
      requires Valid() && closing && (socket == Open || socket == Connecting)
      modifies this`sent, this`closing
      ensures Valid() && destroyed && !closing
      ensures sent == old(sent) + [Quit]
    {
      sent := sent + [Quit];
      closing := false;
    }
  }
}
