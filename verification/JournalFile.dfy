/** The journal file: one encoded operation per line, appended with `fsync`,
    read back and repaired at startup. */
module JournalFile {
  import opened Types

  const NEWLINE: Byte := 10

  /** How an operation becomes bytes. JSON text, the codec in use, contains no
      raw newline (section 7 of RFC 8259) and no strict prefix of an object is
      itself a complete text. */
  datatype Codec = Codec(encode: JournalOp -> seq<Byte>, decode: seq<Byte> -> Option<JournalOp>) {
    ghost predicate Valid() {
      && (forall op :: decode(encode(op)) == Some(op))
      && (forall op :: NEWLINE !in encode(op) && encode(op) != [])
      && (forall op, k :: 0 <= k < |encode(op)| ==> decode(encode(op)[..k]) == None)
    }

    function Line(op: JournalOp): seq<Byte> {
      encode(op) + [NEWLINE]
    }

    function Serialize(ops: seq<JournalOp>): seq<Byte> {
      if ops == [] then [] else Serialize(ops[..|ops| - 1]) + Line(ops[|ops| - 1])
    }
  }

  /** The newline-terminated lines of a file and the bytes after the last
      newline. */
  function Split(bytes: seq<Byte>): (seq<seq<Byte>>, seq<Byte>) {
    if bytes == [] then ([], []) else
      var (lines, tail) := Split(bytes[..|bytes| - 1]);
      var last := bytes[|bytes| - 1];
      if last == NEWLINE then (lines + [tail], []) else (lines, tail + [last])
  }

  /** Decode the non-empty lines; `Err` carries the number of the first corrupt
      one, counted among the non-empty lines from 1. */
  function DecodeLines(codec: Codec, lines: seq<seq<Byte>>): Result<seq<JournalOp>, nat> {
    if lines == [] then Ok([]) else
      var last := lines[|lines| - 1];
      match DecodeLines(codec, lines[..|lines| - 1])
      case Err(n) => Err(n)
      case Ok(ops) =>
        if last == [] then Ok(ops) else
          match codec.decode(last)
          case Some(op) => Ok(ops + [op])
          case None => Err(|ops| + 1)
  }

  /** The bytes up to and including the last newline. */
  function Complete(bytes: seq<Byte>): seq<Byte> {
    var tail := Split(bytes).1;
    if |tail| <= |bytes| then bytes[..|bytes| - |tail|] else []
  }

  /** The operations of a file and the file after its repair: an unterminated
      operation is kept and terminated, any other unterminated bytes go. */
  function Load(codec: Codec, bytes: seq<Byte>): (Result<seq<JournalOp>, nat>, seq<Byte>) {
    var (lines, tail) := Split(bytes);
    var last := if tail == [] then None else codec.decode(tail);
    var repaired := if tail == [] then bytes else if last.Some? then bytes + [NEWLINE] else Complete(bytes);
    (match DecodeLines(codec, lines)
     case Err(n) => Err(n)
     case Ok(ops) => Ok(if last.Some? then ops + [last.value] else ops),
     repaired)
  }

  // ---------------------------------------------------------------------
  // Splitting
  // ---------------------------------------------------------------------

  /** The file ends with a newline or is empty. */
  predicate Terminated(bytes: seq<Byte>) {
    bytes == [] || bytes[|bytes| - 1] == NEWLINE
  }

  /** `tail` is what follows the last newline of `bytes`. */
  predicate IsTail(bytes: seq<Byte>, tail: seq<Byte>) {
    && |tail| <= |bytes| && tail == bytes[|bytes| - |tail|..]
    && NEWLINE !in tail
    && (|tail| < |bytes| ==> bytes[|bytes| - |tail| - 1] == NEWLINE)
  }

  lemma TailStep(front: seq<Byte>, tail: seq<Byte>, last: Byte)
    requires IsTail(front, tail)
    ensures IsTail(front + [last], if last == NEWLINE then [] else tail + [last])
  {
    var bytes, cut := front + [last], |front| - |tail|;
    if last == NEWLINE {
      assert bytes[|bytes|..] == [];
    } else {
      assert bytes[cut..] == front[cut..] + [last];
      assert cut > 0 ==> bytes[cut - 1] == front[cut - 1];
    }
  }

  lemma SplitSnoc(front: seq<Byte>, last: Byte)
    ensures Split(front + [last])
            == if last == NEWLINE then (Split(front).0 + [Split(front).1], [])
               else (Split(front).0, Split(front).1 + [last])
  {
    assert (front + [last])[..|front|] == front;
  }

  lemma SplitNothing()
    ensures Split([]) == ([], [])
  {
  }

  lemma NoTail()
    ensures IsTail([], [])
  {
  }

  lemma {:induction false} SplitTail(bytes: seq<Byte>)
    ensures IsTail(bytes, Split(bytes).1)
  {
    hide IsTail, Split;
    if bytes == [] {
      SplitNothing();
      NoTail();
    } else {
      var front, last := bytes[..|bytes| - 1], bytes[|bytes| - 1];
      assert bytes == front + [last];
      SplitTail(front);
      SplitSnoc(front, last);
      TailStep(front, Split(front).1, last);
    }
  }

  /** A file cut in front of its tail. */
  lemma TailCut(bytes: seq<Byte>, tail: seq<Byte>, complete: seq<Byte>)
    requires IsTail(bytes, tail) && complete == bytes[..|bytes| - |tail|]
    ensures bytes == complete + tail
    ensures Terminated(complete) && (tail == [] <==> Terminated(bytes))
  {
    hide Terminated, IsTail;
    TailShape(bytes, tail);
    TakeDrop(bytes, |bytes| - |tail|);
    LastDecides(complete);
    if tail == [] {
      assert complete + tail == complete;
    } else {
      LastDecides(bytes);
      assert bytes[|bytes| - 1] == tail[|tail| - 1];
      assert tail[|tail| - 1] in tail;
    }
  }

  lemma TailShape(bytes: seq<Byte>, tail: seq<Byte>)
    requires IsTail(bytes, tail)
    ensures |tail| <= |bytes| && tail == bytes[|bytes| - |tail|..] && NEWLINE !in tail
    ensures |tail| < |bytes| ==> bytes[|bytes| - |tail| - 1] == NEWLINE
  {
  }

  lemma TakeDrop<T>(s: seq<T>, k: nat)
    requires k <= |s|
    ensures s == s[..k] + s[k..]
  {
  }

  lemma LastDecides(bytes: seq<Byte>)
    ensures Terminated(bytes) <==> bytes == [] || bytes[|bytes| - 1] == NEWLINE
  {
  }

  lemma SplitShape(bytes: seq<Byte>)
    ensures var tail := Split(bytes).1;
            && |tail| <= |bytes|
            && bytes == Complete(bytes) + tail
            && NEWLINE !in tail
            && Terminated(Complete(bytes))
            && (tail == [] <==> Terminated(bytes))
  {
    hide Split, Terminated;
    SplitTail(bytes);
    TailCut(bytes, Split(bytes).1, Complete(bytes));
  }

  /** Splitting after a terminated prefix. */
  lemma {:induction false} SplitConcat(a: seq<Byte>, b: seq<Byte>)
    requires Terminated(a)
    ensures Split(a + b) == (Split(a).0 + Split(b).0, Split(b).1)
    decreases |b|
  {
    SplitShape(a);
    if b == [] {
      assert a + b == a;
      assert Split(a).0 + [] == Split(a).0;
    } else {
      var front, last := b[..|b| - 1], b[|b| - 1];
      assert (a + b)[..|a + b| - 1] == a + front;
      assert (a + b)[|a + b| - 1] == last;
      SplitConcat(a, front);
      assert Split(a).0 + (Split(front).0 + [Split(front).1]) == Split(a).0 + Split(front).0 + [Split(front).1];
    }
  }

  lemma {:induction false} SplitPlain(bytes: seq<Byte>)
    requires NEWLINE !in bytes
    ensures Split(bytes) == ([], bytes)
  {
    if bytes != [] {
      var front, last := bytes[..|bytes| - 1], bytes[|bytes| - 1];
      assert last in bytes;
      assert forall x | x in front :: x in bytes;
      SplitPlain(front);
      assert bytes == front + [last];
    }
  }

  lemma SplitLine(line: seq<Byte>)
    requires NEWLINE !in line
    ensures Split(line + [NEWLINE]) == ([line], [])
  {
    SplitPlain(line);
    assert (line + [NEWLINE])[..|line|] == line;
    assert Split(line).0 + [line] == [line];
  }

  /** The lines of a file are those of its terminated part. */
  lemma CompleteLines(bytes: seq<Byte>)
    ensures Split(Complete(bytes)) == (Split(bytes).0, [])
  {
    SplitShape(bytes);
    SplitShape(Complete(bytes));
    SplitConcat(Complete(bytes), Split(bytes).1);
    SplitPlain(Split(bytes).1);
    assert Split(Complete(bytes)).0 + [] == Split(Complete(bytes)).0;
  }

  lemma NothingSplits(codec: Codec)
    ensures Split([]) == ([], []) && DecodeLines(codec, []) == Ok([])
  {
  }

  lemma SplitStep(bytes: seq<Byte>, i: nat)
    requires i < |bytes|
    ensures var (lines, tail) := Split(bytes[..i]);
            Split(bytes[..i + 1]) == if bytes[i] == NEWLINE then (lines + [tail], []) else (lines, tail + [bytes[i]])
  {
    SplitSnoc(bytes[..i], bytes[i]);
    assert bytes[..i + 1] == bytes[..i] + [bytes[i]];
  }

  lemma DecodeStep(codec: Codec, lines: seq<seq<Byte>>, line: seq<Byte>)
    requires DecodeLines(codec, lines).Ok?
    ensures var ops := DecodeLines(codec, lines).value;
            DecodeLines(codec, lines + [line]) ==
              if line == [] then Ok(ops) else
                match codec.decode(line)
                case Some(op) => Ok(ops + [op])
                case None => Err(|ops| + 1)
  {
    assert (lines + [line])[..|lines|] == lines;
  }

  lemma DecodeOneMore(codec: Codec, lines: seq<seq<Byte>>, op: JournalOp, line: seq<Byte>)
    requires DecodeLines(codec, lines).Ok? && line != [] && codec.decode(line) == Some(op)
    ensures DecodeLines(codec, lines + [line]) == Ok(DecodeLines(codec, lines).value + [op])
  {
    assert (lines + [line])[..|lines|] == lines;
  }

  // ---------------------------------------------------------------------
  // Which files load
  // ---------------------------------------------------------------------

  /** A line the loader skips or decodes. */
  predicate IsGood(codec: Codec, line: seq<Byte>) {
    line == [] || codec.decode(line).Some?
  }

  predicate AllGood(codec: Codec, lines: seq<seq<Byte>>) {
    forall i | 0 <= i < |lines| :: IsGood(codec, lines[i])
  }

  function NonEmpty(lines: seq<seq<Byte>>): nat {
    if lines == [] then 0
    else NonEmpty(lines[..|lines| - 1]) + if lines[|lines| - 1] == [] then 0 else 1
  }

  lemma {:induction false} DecodesIff(codec: Codec, lines: seq<seq<Byte>>)
    ensures DecodeLines(codec, lines).Ok? <==> AllGood(codec, lines)
    ensures DecodeLines(codec, lines).Ok? ==> |DecodeLines(codec, lines).value| == NonEmpty(lines)
  {
    if lines != [] {
      var front, last := lines[..|lines| - 1], lines[|lines| - 1];
      DecodesIff(codec, front);
      assert forall i | 0 <= i < |front| :: front[i] == lines[i];
      assert AllGood(codec, lines) <==> AllGood(codec, front) && IsGood(codec, last);
    }
  }

  /** A file loads exactly when every complete line is empty or decodes; the
      unterminated bytes at its end never matter. */
  lemma LoadsIff(codec: Codec, bytes: seq<Byte>)
    ensures Load(codec, bytes).0.Ok? <==> AllGood(codec, Split(bytes).0)
  {
    hide DecodeLines, AllGood;
    DecodesIff(codec, Split(bytes).0);
  }

  /** The error names the first bad line, counted among the non-empty ones. */
  lemma {:induction false} FirstBadLine(codec: Codec, lines: seq<seq<Byte>>, i: nat)
    requires i < |lines| && !IsGood(codec, lines[i]) && forall j | 0 <= j < i :: IsGood(codec, lines[j])
    ensures DecodeLines(codec, lines) == Err(NonEmpty(lines[..i]) + 1)
    decreases |lines|
  {
    var front, last := lines[..|lines| - 1], lines[|lines| - 1];
    assert forall j | 0 <= j < |front| :: front[j] == lines[j];
    if i == |lines| - 1 {
      assert front == lines[..i] && lines == front + [last] && AllGood(codec, front);
      DecodesIff(codec, front);
      DecodeStep(codec, front, last);
    } else {
      assert front[..i] == lines[..i];
      FirstBadLine(codec, front, i);
      assert DecodeLines(codec, lines) == DecodeLines(codec, front);
    }
  }

  /** A line cut short is dropped as long as it is the unterminated end of the
      file. With a newline behind it the same bytes are an error, although they
      are the last line. */
  lemma TerminatedTornLine(codec: Codec, file: seq<Byte>, ops: seq<JournalOp>, op: JournalOp, cut: nat)
    requires codec.Valid() && Holds(codec, file, ops) && 0 < cut < |codec.encode(op)|
    ensures Load(codec, file + codec.encode(op)[..cut]) == (Ok(ops), file)
    ensures Load(codec, file + codec.encode(op)[..cut] + [NEWLINE]).0 == Err(|ops| + 1)
  {
    hide Split, DecodeLines;
    var torn := codec.encode(op)[..cut];
    assert codec.Line(op)[..cut] == torn;
    TornLine(codec, file, ops, op, cut);
    assert NEWLINE !in torn && codec.decode(torn) == None;
    BadLineAppended(codec, file, ops, torn);
    assert file + torn + [NEWLINE] == file + (torn + [NEWLINE]);
  }

  lemma BadLineAppended(codec: Codec, file: seq<Byte>, ops: seq<JournalOp>, line: seq<Byte>)
    requires Holds(codec, file, ops) && NEWLINE !in line && !IsGood(codec, line)
    ensures Load(codec, file + (line + [NEWLINE])).0 == Err(|ops| + 1)
  {
    hide Split, DecodeLines;
    SplitShape(file);
    SplitConcat(file, line + [NEWLINE]);
    SplitLine(line);
    DecodeStep(codec, Split(file).0, line);
  }

  // ---------------------------------------------------------------------
  // The repair is stable
  // ---------------------------------------------------------------------

  /** After a successful load the file is terminated, loads to the same
      operations, and loading it again changes nothing. */
  lemma LoadIsStable(codec: Codec, bytes: seq<Byte>)
    requires Load(codec, bytes).0.Ok?
    ensures var (r, file) := Load(codec, bytes); Terminated(file) && Load(codec, file) == (r, file)
  {
    var (lines, tail) := Split(bytes);
    SplitShape(bytes);
    if tail != [] {
      if codec.decode(tail).Some? {
        assert bytes + [NEWLINE] == Complete(bytes) + (tail + [NEWLINE]);
        CompleteLines(bytes);
        SplitConcat(Complete(bytes), tail + [NEWLINE]);
        SplitLine(tail);
        DecodeOneMore(codec, lines, codec.decode(tail).value, tail);
      } else {
        CompleteLines(bytes);
      }
    }
  }

  /** A file without a torn tail, and the operations on it. */
  ghost predicate Holds(codec: Codec, file: seq<Byte>, ops: seq<JournalOp>) {
    Terminated(file) && Load(codec, file) == (Ok(ops), file)
  }

  lemma AppendHolds(codec: Codec, file: seq<Byte>, ops: seq<JournalOp>, op: JournalOp)
    requires codec.Valid() && Holds(codec, file, ops)
    ensures Holds(codec, file + codec.Line(op), ops + [op])
  {
    SplitShape(file);
    SplitConcat(file, codec.Line(op));
    SplitLine(codec.encode(op));
    DecodeOneMore(codec, Split(file).0, op, codec.encode(op));
  }

  lemma {:induction false} SerializeHolds(codec: Codec, file: seq<Byte>, ops: seq<JournalOp>, more: seq<JournalOp>)
    requires codec.Valid() && Holds(codec, file, ops)
    ensures Holds(codec, file + codec.Serialize(more), ops + more)
    decreases |more|
  {
    hide Holds, Codec.Valid, Codec.Serialize, Codec.Line;
    if more == [] {
      SerializeNothing(codec);
      assert file + [] == file && ops + [] == ops;
    } else {
      var front, last := more[..|more| - 1], more[|more| - 1];
      assert more == front + [last];
      SerializeHolds(codec, file, ops, front);
      AppendHolds(codec, file + codec.Serialize(front), ops + front, last);
      SerializeExtend(codec, front, last);
      assert file + (codec.Serialize(front) + codec.Line(last)) == file + codec.Serialize(front) + codec.Line(last);
      assert ops + (front + [last]) == ops + front + [last];
    }
  }

  /** A file is read line by line: an empty line says nothing, any other is one more
      operation or an error with the number of that line among the non-empty ones. At
      the end bytes without a newline are one more operation or are cut off. */
  lemma ReadLineByLine(codec: Codec, file: seq<Byte>, ops: seq<JournalOp>, line: seq<Byte>)
    requires Holds(codec, file, ops) && 10 !in line
    ensures Load(codec, []) == (Ok([]), [])
    ensures Load(codec, file + (line + [10]))
            == if line == [] then (Ok(ops), file + [10])
               else if codec.decode(line).Some? then (Ok(ops + [codec.decode(line).value]), file + (line + [10]))
               else (Err(|ops| + 1), file + (line + [10]))
    ensures Load(codec, file + line)
            == if line == [] then (Ok(ops), file)
               else if codec.decode(line).Some? then (Ok(ops + [codec.decode(line).value]), file + line + [10])
               else (Ok(ops), file)
  {
    hide Split, DecodeLines;
    NothingSplits(codec);
    SplitShape(file);
    SplitConcat(file, line + [10]);
    SplitLine(line);
    DecodeStep(codec, Split(file).0, line);
    assert line == [] ==> file + (line + [10]) == file + [10] && file + line == file;
    PlainTail(file, line);
  }

  /** Appending to the repaired file and loading again gives the operations of
      the first load and the appended ones. */
  lemma AppendAfterLoad(codec: Codec, bytes: seq<Byte>, more: seq<JournalOp>)
    requires codec.Valid() && Load(codec, bytes).0.Ok?
    ensures var (r, file) := Load(codec, bytes);
            Load(codec, file + codec.Serialize(more)) == (Ok(r.value + more), file + codec.Serialize(more))
  {
    LoadIsStable(codec, bytes);
    var (r, file) := Load(codec, bytes);
    SerializeHolds(codec, file, r.value, more);
  }

  // ---------------------------------------------------------------------
  // A crash at any byte
  // ---------------------------------------------------------------------

  /** A file that ends in the first `cut` bytes of one encoded line. */
  lemma TornLine(codec: Codec, file: seq<Byte>, ops: seq<JournalOp>, op: JournalOp, cut: nat)
    requires codec.Valid() && Holds(codec, file, ops) && cut < |codec.Line(op)|
    ensures Load(codec, file + codec.Line(op)[..cut]) ==
            if cut == |codec.encode(op)| then (Ok(ops + [op]), file + codec.Line(op)) else (Ok(ops), file)
  {
    hide Split, DecodeLines, Complete;
    var torn := codec.encode(op)[..cut];
    assert codec.Line(op)[..cut] == torn;
    PlainTail(file, torn);
    var bytes := file + torn;
    if cut == |codec.encode(op)| {
      assert torn == codec.encode(op);
      assert bytes + [NEWLINE] == file + codec.Line(op);
    } else {
      assert torn == [] ==> bytes == file;
    }
  }

  /** Bytes without a newline behind a terminated file are its tail. */
  lemma PlainTail(file: seq<Byte>, torn: seq<Byte>)
    requires Terminated(file) && NEWLINE !in torn
    ensures Split(file + torn) == (Split(file).0, torn) && Complete(file + torn) == file
  {
    hide Split;
    SplitConcat(file, torn);
    SplitPlain(torn);
    assert Split(file).0 + [] == Split(file).0;
    assert (file + torn)[..|file|] == file;
  }

  /** The number of operations of `ops` whose encoding is complete within the
      first `cut` bytes, whether or not the newline made it. */
  function Landed(codec: Codec, ops: seq<JournalOp>, cut: nat): nat {
    if ops == [] then 0
    else if cut < |codec.Serialize(ops)| - 1 then Landed(codec, ops[..|ops| - 1], cut)
    else |ops|
  }

  /** Whatever byte the crash hits, the load succeeds and returns what was
      acknowledged followed by the in-flight operations that landed. */
  lemma {:induction false} CrashAtAnyByte(codec: Codec, file: seq<Byte>, ops: seq<JournalOp>,
                                          inFlight: seq<JournalOp>, cut: nat)
    requires codec.Valid() && Holds(codec, file, ops) && cut <= |codec.Serialize(inFlight)|
    ensures var k := Landed(codec, inFlight, cut);
            && k <= |inFlight|
            && Load(codec, file + codec.Serialize(inFlight)[..cut])
               == (Ok(ops + inFlight[..k]), file + codec.Serialize(inFlight[..k]))
    decreases |inFlight|
  {
    hide Load, Split, Codec.Valid, Codec.Serialize, Landed, Holds;
    if cut == |codec.Serialize(inFlight)| {
      NothingCut(codec, file, ops, inFlight);
    } else {
      SerializeNothing(codec);
      var front, last := inFlight[..|inFlight| - 1], inFlight[|inFlight| - 1];
      assert inFlight == front + [last];
      SerializeExtend(codec, front, last);
      if cut < |codec.Serialize(front)| {
        LandedEarlier(codec, front, last, cut);
        CrashAtAnyByte(codec, file, ops, front, cut);
        PrefixOfFront(codec, front, last, cut);
      } else {
        CrashInLastLine(codec, file, ops, front, last, cut);
        assert inFlight[..|front|] == front && inFlight[..|inFlight|] == inFlight;
      }
    }
  }

  lemma NothingCut(codec: Codec, file: seq<Byte>, ops: seq<JournalOp>, inFlight: seq<JournalOp>)
    requires codec.Valid() && Holds(codec, file, ops)
    ensures var all := codec.Serialize(inFlight); var k := Landed(codec, inFlight, |all|);
            && k == |inFlight|
            && Load(codec, file + all[..|all|])
               == (Ok(ops + inFlight[..k]), file + codec.Serialize(inFlight[..k]))
  {
    hide Load, Split, Codec.Valid;
    var all := codec.Serialize(inFlight);
    SerializeHolds(codec, file, ops, inFlight);
    LandedAll(codec, inFlight, |all|);
    assert all[..|all|] == all && inFlight[..|inFlight|] == inFlight;
  }

  lemma SerializeNothing(codec: Codec)
    ensures codec.Serialize([]) == []
  {
  }

  /** What lies before the last line is decided there. */
  lemma LandedEarlier(codec: Codec, front: seq<JournalOp>, last: JournalOp, cut: nat)
    requires cut < |codec.Serialize(front)|
    ensures Landed(codec, front + [last], cut) == Landed(codec, front, cut)
  {
    hide Codec.Serialize;
    SerializeExtend(codec, front, last);
    assert (front + [last])[..|front|] == front;
  }

  lemma PrefixOfFront(codec: Codec, front: seq<JournalOp>, last: JournalOp, cut: nat)
    requires cut < |codec.Serialize(front)|
    ensures codec.Serialize(front + [last])[..cut] == codec.Serialize(front)[..cut]
    ensures forall k | 0 <= k <= |front| :: (front + [last])[..k] == front[..k]
  {
    hide Codec.Serialize;
    SerializeExtend(codec, front, last);
  }

  lemma SerializeExtend(codec: Codec, front: seq<JournalOp>, last: JournalOp)
    ensures codec.Serialize(front + [last]) == codec.Serialize(front) + codec.Line(last)
  {
    assert (front + [last])[..|front|] == front;
  }

  lemma CrashInLastLine(codec: Codec, file: seq<Byte>, ops: seq<JournalOp>, front: seq<JournalOp>,
                        last: JournalOp, cut: nat)
    requires codec.Valid() && Holds(codec, file, ops)
    requires |codec.Serialize(front)| <= cut < |codec.Serialize(front + [last])|
    ensures var whole := cut == |codec.Serialize(front + [last])| - 1;
            && Landed(codec, front + [last], cut) == (if whole then |front| + 1 else |front|)
            && Load(codec, file + codec.Serialize(front + [last])[..cut])
               == if whole then (Ok(ops + (front + [last])), file + codec.Serialize(front + [last]))
                  else (Ok(ops + front), file + codec.Serialize(front))
  {
    hide Load, Codec.Valid;
    var before := codec.Serialize(front);
    SerializeExtend(codec, front, last);
    var all := codec.Serialize(front + [last]);
    SerializeHolds(codec, file, ops, front);
    TornLine(codec, file + before, ops + front, last, cut - |before|);
    assert file + all[..cut] == file + before + codec.Line(last)[..cut - |before|];
    assert file + all == file + before + codec.Line(last);
    assert ops + (front + [last]) == ops + front + [last];
    assert (front + [last])[..|front|] == front;
    LandedAll(codec, front, cut);
  }

  lemma LandedAll(codec: Codec, ops: seq<JournalOp>, cut: nat)
    requires |codec.Serialize(ops)| <= cut
    ensures Landed(codec, ops, cut) == |ops|
  {
  }
}
