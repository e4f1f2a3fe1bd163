/**
 * The two endpoints against each other: what the consumer's decoder makes of
 * blob-string framing like the producer's, and of the reply to
 * `XREADGROUP ... COUNT 1` that carries one entry the producer added.
 */
module RoundTrip {
  import opened Text
  import opened Protocol
  import opened Readable
  import opened Writable

  // ---------------------------------------------------------------------------
  // The filter, piece by piece
  // ---------------------------------------------------------------------------

  predicate NoMarkers(lines: seq<string>)
  {
    forall i :: 0 <= i < |lines| ==> !IsBlobMarker(lines[i])
  }

  predicate NoCrlfs(lines: seq<string>)
  {
    forall i :: 0 <= i < |lines| ==> !HasCrlf(lines[i])
  }

  predicate AllAscii(lines: seq<string>)
  {
    forall i :: 0 <= i < |lines| ==> IsAscii(lines[i])
  }

  /**
   * The filter does not throw on `lines`, keeps `kept`, and complains about
   * nothing exactly when `ascii` holds.
   */
  predicate Yields(lines: seq<string>, kept: seq<string>, ascii: bool)
  {
    var f := DropMarkers(lines);
    !f.threw && f.kept == kept && (f.errors == [] <==> ascii)
  }

  /**
   * The filter looks one line ahead only from a marker, and a chunk on which it
   * does not throw ends with a line that is not a marker: filtering such a
   * chunk followed by another is filtering each of them in turn.
   */
  lemma {:induction false} DropMarkersAppend(a: seq<string>, b: seq<string>)
    requires !DropMarkers(a).threw
    ensures var fa, fb := DropMarkers(a), DropMarkers(b);
      DropMarkers(a + b) == Filtered(fa.kept + fb.kept, fa.errors + fb.errors, fb.threw)
    decreases |a|
  {
    if |a| == 0 {
      assert a + b == b;
    } else {
      assert (a + b)[0] == a[0];
      assert (a + b)[1..] == a[1..] + b;
      if IsBlobMarker(a[0]) {
        assert |a| >= 2;
        assert (a + b)[1] == a[1];
      }
      DropMarkersAppend(a[1..], b);
    }
  }

  lemma YieldsAppend(a: seq<string>, ka: seq<string>, xa: bool, b: seq<string>, kb: seq<string>, xb: bool)
    requires Yields(a, ka, xa) && Yields(b, kb, xb)
    ensures Yields(a + b, ka + kb, xa && xb)
  {
    DropMarkersAppend(a, b);
  }

  lemma YieldsPlain(line: string)
    requires !IsBlobMarker(line)
    ensures Yields([line], [line], true)
  {
    assert [line][1..] == [];
  }

  lemma HeaderIsMarker(n: nat)
    ensures IsBlobMarker("$" + Decimal(n)) && DeclaredLength("$" + Decimal(n)) == n
  {
    DecimalRoundTrip(n);
    assert ("$" + Decimal(n))[1..] == Decimal(n);
  }

  /**
   * One blob string: the filter keeps the payload and complains exactly when
   * its JavaScript length differs from its byte length, that is, when it is
   * not ASCII.
   */
  lemma YieldsBlob(arg: string)
    requires !IsBlobMarker(arg)
    ensures Yields(Blob(arg), [arg], IsAscii(arg))
  {
    HeaderIsMarker(Utf8Length(arg));
    ByteLengthVersusLength(arg);
    YieldsPlain(arg);
    assert Blob(arg)[1..] == [arg];
  }

  lemma AllAsciiCons(lines: seq<string>)
    requires |lines| > 0
    ensures AllAscii(lines) <==> IsAscii(lines[0]) && AllAscii(lines[1..])
  {
    if IsAscii(lines[0]) && AllAscii(lines[1..]) {
      forall i | 0 <= i < |lines| ensures IsAscii(lines[i]) {
        if i > 0 { assert lines[i] == lines[1..][i - 1]; }
      }
    }
  }

  /** The filter keeps exactly the arguments of a run of blob strings. */
  lemma {:induction false} YieldsBlobLines(args: seq<string>)
    requires NoMarkers(args)
    ensures Yields(BlobLines(args), args, AllAscii(args))
    decreases |args|
  {
    if |args| == 0 {
      assert BlobLines(args) == [];
    } else {
      var rest := args[1..];
      assert NoMarkers(rest) by {
        forall i | 0 <= i < |rest| ensures !IsBlobMarker(rest[i]) {
          assert rest[i] == args[i + 1];
        }
      }
      YieldsBlob(args[0]);
      YieldsBlobLines(rest);
      YieldsAppend(Blob(args[0]), [args[0]], IsAscii(args[0]), BlobLines(rest), rest, AllAscii(rest));
      assert [args[0]] + rest == args;
      AllAsciiCons(args);
    }
  }

  // ---------------------------------------------------------------------------
  // The producer's encoding as the consumer's filter sees it
  // ---------------------------------------------------------------------------

  /** Arguments free of CR LF, none of them shaped like a blob marker. */
  predicate Plain(args: seq<string>)
  {
    NoCrlfs(args) && NoMarkers(args)
  }

  /**
   * Dropping the markers from a command encoded as blob strings gives back the
   * array header and the arguments, provided no argument contains CR LF or is
   * itself shaped like a marker; a length complaint is raised exactly when
   * some argument is not ASCII.
   */
  lemma ReaderRecoversArguments(args: seq<string>)
    requires Plain(args)
    ensures var f := DropMarkers(Split(EncodeCommand(args)));
      && !f.threw && f.kept == ["*" + Decimal(|args|)] + args + [""]
      && (f.errors == [] <==> AllAscii(args))
  {
    var header := "*" + Decimal(|args|);
    EncodeLines(args);
    YieldsPlain(header);
    YieldsBlobLines(args);
    YieldsPlain("");
    YieldsAppend([header], [header], true, BlobLines(args), args, AllAscii(args));
    YieldsAppend([header] + BlobLines(args), [header] + args, AllAscii(args), [""], [""], true);
  }

  // ---------------------------------------------------------------------------
  // The reply to XREADGROUP that carries one entry
  // ---------------------------------------------------------------------------

  /**
   * The RESP3 lines of the reply: a map of one stream to an array of one
   * entry, the entry being its id and the flat array of its fields.
   */
  function ReplyLines(streamName: string, id: string, fields: seq<string>): seq<string>
  {
    ReplyHead(streamName, id, |fields|) + BlobLines(fields) + [""]
  }

  function ReplyHead(streamName: string, id: string, count: nat): seq<string>
  {
    ["%1"] + Blob(streamName) + ["*1", "*2"] + Blob(id) + ["*" + Decimal(count)]
  }

  function StoreReply(streamName: string, id: string, fields: seq<string>): string
  {
    Join(ReplyLines(streamName, id, fields))
  }

  /** A reply whose blobs hold no CR LF splits back into its lines. */
  lemma ReplyLinesSplit(streamName: string, id: string, fields: seq<string>)
    requires NoCrlfs([streamName, id] + fields)
    ensures Split(StoreReply(streamName, id, fields)) == ReplyLines(streamName, id, fields)
  {
    var all := [streamName, id] + fields;
    assert NoCrlfs(fields) by {
      forall i | 0 <= i < |fields| ensures !HasCrlf(fields[i]) {
        assert fields[i] == all[i + 2];
      }
    }
    assert all[0] == streamName && all[1] == id;
    BlobLinesHaveNoCrlf([streamName]);
    BlobLinesHaveNoCrlf([id]);
    BlobLinesHaveNoCrlf(fields);
    assert BlobLines([streamName]) == Blob(streamName) && BlobLines([id]) == Blob(id);
    HeaderHasNoCrlf('*', |fields|);
    assert "*" + Decimal(|fields|) == ['*'] + Decimal(|fields|);
    NoCrNoCrlf("%1");
    NoCrNoCrlf("*1");
    NoCrNoCrlf("*2");
    var lines := ReplyLines(streamName, id, fields);
    var a, b, c, d := Blob(streamName), Blob(id), BlobLines(fields), "*" + Decimal(|fields|);
    assert lines == ["%1"] + a + ["*1", "*2"] + b + [d] + c + [""];
    forall i | 0 <= i < |lines| ensures !HasCrlf(lines[i]) {
      if i == 0 {
      } else if i < 3 {
        assert lines[i] == a[i - 1];
      } else if i < 5 {
      } else if i < 7 {
        assert lines[i] == b[i - 5];
      } else if i == 7 {
      } else if i < 8 + |c| {
        assert lines[i] == c[i - 8];
      }
    }
    SplitJoin(lines);
  }

  /** The lines before the field list: the stream, the entry id and the count. */
  lemma YieldsReplyHead(streamName: string, id: string, count: nat)
    requires !IsBlobMarker(streamName) && !IsBlobMarker(id)
    ensures Yields(ReplyHead(streamName, id, count),
                   ["%1", streamName, "*1", "*2", id, "*" + Decimal(count)],
                   IsAscii(streamName) && IsAscii(id))
  {
    var n := "*" + Decimal(count);
    YieldsPlain("%1");
    YieldsPlain("*1");
    YieldsPlain("*2");
    YieldsPlain(n);
    YieldsBlob(streamName);
    YieldsBlob(id);
    YieldsAppend(["*1"], ["*1"], true, ["*2"], ["*2"], true);
    assert ["*1"] + ["*2"] == ["*1", "*2"];
    YieldsAppend(["%1"], ["%1"], true, Blob(streamName), [streamName], IsAscii(streamName));
    var h1 := ["%1"] + Blob(streamName);
    YieldsAppend(h1, ["%1", streamName], IsAscii(streamName), ["*1", "*2"], ["*1", "*2"], true);
    var h2 := h1 + ["*1", "*2"];
    YieldsAppend(h2, ["%1", streamName, "*1", "*2"], IsAscii(streamName), Blob(id), [id], IsAscii(id));
    var h3 := h2 + Blob(id);
    YieldsAppend(h3, ["%1", streamName, "*1", "*2", id], IsAscii(streamName) && IsAscii(id), [n], [n], true);
  }

  /** The lines that survive the filter, and when it complains. */
  lemma ReplyLinesFilter(streamName: string, id: string, fields: seq<string>)
    requires NoMarkers([streamName, id] + fields)
    ensures var f := DropMarkers(ReplyLines(streamName, id, fields));
      && !f.threw
      && f.kept == KeptLines(streamName, id, fields)
      && (f.errors == [] <==> IsAscii(streamName) && IsAscii(id) && AllAscii(fields))
  {
    var all := [streamName, id] + fields;
    assert all[0] == streamName && all[1] == id;
    assert NoMarkers(fields) by {
      forall i | 0 <= i < |fields| ensures !IsBlobMarker(fields[i]) {
        assert fields[i] == all[i + 2];
      }
    }
    var head := ReplyHead(streamName, id, |fields|);
    var kh := ["%1", streamName, "*1", "*2", id, "*" + Decimal(|fields|)];
    YieldsReplyHead(streamName, id, |fields|);
    YieldsBlobLines(fields);
    YieldsPlain("");
    YieldsAppend(head, kh, IsAscii(streamName) && IsAscii(id), BlobLines(fields), fields, AllAscii(fields));
    YieldsAppend(head + BlobLines(fields), kh + fields, IsAscii(streamName) && IsAscii(id) && AllAscii(fields),
                 [""], [""], true);
  }

  /** An array header `*<n>`: its count is the text of `n`, above `'0'` exactly when `n > 0`. */
  lemma ArrayHeaderCount(n: nat)
    ensures ArrayCount("*" + Decimal(n)) == Some(Decimal(n))
    ensures DigitsValue(Decimal(n)) == n
    ensures LexLess("0", Decimal(n)) <==> n > 0
  {
    DecimalRoundTrip(n);
    assert ("*" + Decimal(n))[1..] == Decimal(n);
    DigitsAboveZero(Decimal(n));
    if n == 0 {
      assert Decimal(0) == "0";
    } else {
      assert Decimal(n) != "0" by {
        assert Decimal(n)[0] != '0';
      }
    }
  }

  /** What the filter keeps of the reply: every line but the blob markers. */
  function KeptLines(streamName: string, id: string, fields: seq<string>): seq<string>
  {
    ["%1", streamName, "*1", "*2", id, "*" + Decimal(|fields|)] + fields + [""]
  }

  lemma KeptLinesParts(streamName: string, id: string, fields: seq<string>)
    ensures var kept := KeptLines(streamName, id, fields);
      && |kept| == 7 + |fields| && kept[1] == streamName && kept[5] == "*" + Decimal(|fields|)
      && kept[6..6 + |fields|] == fields
  {
  }

  /** The kept lines pass the shape test for this stream only, and only with fields. */
  lemma ReplyEntryShape(streamName: string, id: string, fields: seq<string>, other: string)
    ensures var kept := KeptLines(streamName, id, fields);
      && ArrayCount(kept[5]) == Some(Decimal(|fields|))
      && (IsOurEntry(kept, other) <==> other == streamName && |fields| > 0)
      && (|fields| > 0 ==> FieldList(kept) == fields)
  {
    var kept := KeptLines(streamName, id, fields);
    KeptLinesParts(streamName, id, fields);
    ArrayHeaderCount(|fields|);
    EntryOwner(kept, |fields|, other);
    EntryFields(kept, fields);
  }

  lemma EntryOwner(kept: seq<string>, count: nat, other: string)
    requires |kept| > 5 && kept[5] == "*" + Decimal(count)
    ensures IsOurEntry(kept, other) <==> other == kept[1] && count > 0
  {
    ArrayHeaderCount(count);
  }

  lemma EntryFields(kept: seq<string>, fields: seq<string>)
    requires |kept| >= 6 + |fields| && kept[5] == "*" + Decimal(|fields|)
    requires kept[6..6 + |fields|] == fields
    ensures ArrayCount(kept[5]).Some? && FieldList(kept) == fields
  {
    ArrayHeaderCount(|fields|);
  }

  /**
   * The consumer's decoder applied to a reply carrying an entry of this
   * stream with a non-empty field list yields the record built from that list
   * and complains exactly when some blob is not ASCII; a reply for another
   * stream, or an entry with no fields, yields no record.
   */
  lemma DecodeStoreReply<J>(streamName: string, id: string, fields: seq<string>,
                            parse: string -> Option<J>, other: string)
    requires Plain([streamName, id] + fields)
    ensures var d := Decode(StoreReply(streamName, id, fields), streamName, parse);
      && !d.threw
      && (|fields| > 0 ==> d.record == Some(ToRecord(parse, Pairs(fields))))
      && (|fields| == 0 ==> d.record == None)
      && (d.errors == [] <==> IsAscii(streamName) && IsAscii(id) && AllAscii(fields))
    ensures other != streamName ==> Decode(StoreReply(streamName, id, fields), other, parse).record == None
  {
    ReplyLinesSplit(streamName, id, fields);
    ReplyLinesFilter(streamName, id, fields);
    ReplyEntryShape(streamName, id, fields, streamName);
    ReplyEntryShape(streamName, id, fields, other);
  }

  // ---------------------------------------------------------------------------
  // Writing an object and reading it back
  // ---------------------------------------------------------------------------

  /**
   * What the consumer delivers for a stored entry whose fields are those the
   * producer sent for an object: the object's keys, each mapped to its value
   * decoded from the text that was sent. A string that does not look like
   * JSON comes back unchanged; a string that does, and parses, comes back
   * parsed; any other value comes back as itself when `JSON.parse` inverts
   * `JSON.stringify` on it and its text starts like an object or an array.
   */
  lemma {:induction false} WriteThenRead<J>(streamName: string, id: string, entries: Entries<J>,
                         stringify: J -> string, parse: string -> Option<J>, i: nat)
    requires |entries| > 0 && i < |entries|
    requires Plain([streamName, id] + FieldArgs(entries, stringify))
    requires forall m :: i < m < |entries| ==> entries[m].0 != entries[i].0
    ensures var d := Decode(StoreReply(streamName, id, FieldArgs(entries, stringify)), streamName, parse);
      && d.record.Some?
      && (forall key :: key in d.record.value <==> exists m :: 0 <= m < |entries| && entries[m].0 == key)
      && entries[i].0 in d.record.value
      && d.record.value[entries[i].0] == TryDecode(parse, Some(ArgOf(entries[i].1, stringify)))
      && (entries[i].1.Str? && !LooksLikeJson(entries[i].1.text) ==>
            d.record.value[entries[i].0] == Raw(entries[i].1.text))
      && (entries[i].1.Str? && LooksLikeJson(entries[i].1.text) && parse(entries[i].1.text).Some? ==>
            d.record.value[entries[i].0] == Parsed(parse(entries[i].1.text).value))
      && (entries[i].1.Other? && LooksLikeJson(stringify(entries[i].1.value))
          && parse(stringify(entries[i].1.value)) == Some(entries[i].1.value) ==>
            d.record.value[entries[i].0] == Parsed(entries[i].1.value))
  {
    var fields := FieldArgs(entries, stringify);
    DecodeStoreReply(streamName, id, fields, parse, streamName);
    RecordKeysOfEntries(entries, stringify, parse);
    RecordValueOfEntry(entries, stringify, parse, i);
  }

  /** The keys of the record built from the producer's field list are the object's keys. */
  lemma {:induction false} RecordKeysOfEntries<J>(entries: Entries<J>, stringify: J -> string,
                                                  parse: string -> Option<J>)
    ensures var r := ToRecord(parse, Pairs(FieldArgs(entries, stringify)));
      forall key :: key in r <==> exists m :: 0 <= m < |entries| && entries[m].0 == key
  {
    var fields := FieldArgs(entries, stringify);
    RecordFromFieldList(parse, fields);
    var r := ToRecord(parse, Pairs(fields));
    forall key ensures key in r <==> exists m :: 0 <= m < |entries| && entries[m].0 == key {
      if key in r {
        var k :| 0 <= 2 * k < |fields| && fields[2 * k] == key;
        assert entries[k].0 == key;
      }
      if exists m :: 0 <= m < |entries| && entries[m].0 == key {
        var m :| 0 <= m < |entries| && entries[m].0 == key;
        assert fields[2 * m] == key;
      }
    }
  }

  /** A key no later property repeats maps to its value decoded from the text sent. */
  lemma {:induction false} RecordValueOfEntry<J>(entries: Entries<J>, stringify: J -> string,
                                                 parse: string -> Option<J>, i: nat)
    requires i < |entries|
    requires forall m :: i < m < |entries| ==> entries[m].0 != entries[i].0
    ensures var r := ToRecord(parse, Pairs(FieldArgs(entries, stringify)));
      && entries[i].0 in r
      && r[entries[i].0] == TryDecode(parse, Some(ArgOf(entries[i].1, stringify)))
  {
    var fields := FieldArgs(entries, stringify);
    RecordFromFieldList(parse, fields);
    forall m | i < m && 2 * m < |fields| ensures fields[2 * m] != fields[2 * i] {
      assert fields[2 * m] == entries[m].0;
    }
    assert PairAt(fields, 2 * i).value == Some(ArgOf(entries[i].1, stringify));
  }

  // ---------------------------------------------------------------------------
  // A value shaped like a marker
  // ---------------------------------------------------------------------------

  lemma BlobOfMarkerShapedValue()
    ensures Blob("$1") == ["$2", "$1"]
  {
    assert Utf8Length("$1") == 2;
    assert Decimal(2) == "2";
    assert "$" + "2" == "$2";
  }

  /** The reply carrying an entry `{key: "$1"}`, cut where the key's blob ends. */
  lemma MarkerShapedReplyLines(streamName: string, id: string, key: string)
    requires NoCrlfs([streamName, id, key])
    ensures Split(StoreReply(streamName, id, [key, "$1"]))
         == ReplyHead(streamName, id, 2) + Blob(key) + ["$2", "$1", ""]
  {
    var fields := [key, "$1"];
    BlobOfMarkerShapedValue();
    assert BlobLines(fields) == Blob(key) + ["$2", "$1"] by {
      assert fields[1..] == ["$1"] && ["$1"][1..] == [];
    }
    NoCrNoCrlf("$1");
    var all := [streamName, id] + fields;
    assert NoCrlfs(all) by {
      forall i | 0 <= i < 4 ensures !HasCrlf(all[i]) {
        if i < 3 { assert all[i] == [streamName, id, key][i]; }
      }
    }
    ReplyLinesSplit(streamName, id, fields);
  }

  /** The marker-shaped payload is read as a marker whose payload is the last line. */
  lemma MarkerShapedTail()
    ensures DropMarkers(["$2", "$1", ""]) == Filtered([""], [LengthError("", "1")], false)
  {
    var tail := ["$2", "$1", ""];
    HeaderIsMarker(1);
    HeaderIsMarker(2);
    assert "$" + Decimal(1) == "$1" && "$" + Decimal(2) == "$2";
    assert tail[1..] == ["$1", ""] && tail[1..][1..] == [""] && [""][1..] == [];
  }

  /** The filter's view of a reply carrying an entry `{key: "$1"}`. */
  lemma MarkerShapedValueFiltered(streamName: string, id: string, key: string)
    requires Plain([streamName, id, key]) && AllAscii([streamName, id, key])
    ensures DropMarkers(Split(StoreReply(streamName, id, [key, "$1"])))
         == Filtered(["%1", streamName, "*1", "*2", id, "*2", key, ""], [LengthError("", "1")], false)
  {
    var head := ReplyHead(streamName, id, 2) + Blob(key);
    var kept := ["%1", streamName, "*1", "*2", id, "*2", key];
    MarkerShapedReplyLines(streamName, id, key);
    MarkerShapedHead(streamName, id, key);
    MarkerShapedTail();
    DropMarkersAppend(head, ["$2", "$1", ""]);
    assert kept + [""] == ["%1", streamName, "*1", "*2", id, "*2", key, ""];
  }

  /** Everything before the marker-shaped value passes the filter untouched. */
  lemma MarkerShapedHead(streamName: string, id: string, key: string)
    requires Plain([streamName, id, key]) && AllAscii([streamName, id, key])
    ensures Yields(ReplyHead(streamName, id, 2) + Blob(key),
                   ["%1", streamName, "*1", "*2", id, "*2", key], true)
  {
    var names := [streamName, id, key];
    assert !IsBlobMarker(names[0]) && !IsBlobMarker(names[1]) && !IsBlobMarker(names[2]);
    assert IsAscii(names[0]) && IsAscii(names[1]) && IsAscii(names[2]);
    var kept := ["%1", streamName, "*1", "*2", id, "*" + Decimal(2)];
    YieldsReplyHead(streamName, id, 2);
    YieldsBlob(key);
    YieldsAppend(ReplyHead(streamName, id, 2), kept, true, Blob(key), [key], true);
    assert "*" + Decimal(2) == "*2";
    assert kept + [key] == ["%1", streamName, "*1", "*2", id, "*2", key];
  }

  /**
   * The filter drops every line shaped like `$<digits>`, wherever it stands:
   * an entry `{key: "$1"}` reaches the consumer as `{key: ""}`, with a
   * complaint that the empty last line is not 1 long.
   */
  lemma MarkerShapedValueIsLost<J>(streamName: string, id: string, key: string, parse: string -> Option<J>)
    requires Plain([streamName, id, key]) && AllAscii([streamName, id, key])
    ensures var d := Decode(StoreReply(streamName, id, [key, "$1"]), streamName, parse);
      && d.record == Some(map[key := Raw("")])
      && d.errors == [LengthError("", "1")]
  {
    var kept := ["%1", streamName, "*1", "*2", id, "*2", key, ""];
    MarkerShapedValueFiltered(streamName, id, key);
    MarkerShapedRecord(parse, kept);
  }

  lemma MarkerShapedRecord<J>(parse: string -> Option<J>, kept: seq<string>)
    requires |kept| == 8 && kept[5] == "*2" && kept[7] == ""
    ensures IsOurEntry(kept, kept[1])
    ensures ToRecord(parse, Pairs(FieldList(kept))) == map[kept[6] := Raw("")]
  {
    assert kept[5][1..] == "2";
    assert ArrayCount("*2") == Some("2");
    assert LexLess("0", "2");
    assert DigitsValue("2") == 2;
    assert FieldList(kept) == [kept[6], ""];
    assert Pairs([kept[6], ""]) == [Pair(kept[6], Some(""))];
    assert !LooksLikeJson("");
    var entries := [(kept[6], Raw(""))];
    assert RecordEntries(parse, [Pair(kept[6], Some(""))]) == entries;
    assert entries[..0] == [];
    assert FromEntries(entries) == map[][kept[6] := Raw("")];
  }
}
