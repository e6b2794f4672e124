/** The hub that routes guest connections to the log channels of their tasks,
    and the handler that serves one connection. */
module VsockHub {
  import opened Types
  import opened Ordering
  import opened Vsock

  type Subscriber = nat

  /** The lines one frame forwards. */
  function FrameLines(frame: LogFrame, lossy: seq<Byte> -> string): seq<string> {
    var lines := Lines(lossy(frame.payload));
    var tag := if frame.stream.Stdout? then "stdout" else "stderr";
    seq(|lines|, i requires 0 <= i < |lines| => "[vsock:" + tag + "] " + lines[i])
  }

  /** The lines of a text: a line ends with a newline, before which one carriage
      return is dropped, or with the text. */
  function Lines(text: string): seq<string>
    decreases |text|
  {
    if text == "" then [] else
      var i := FirstNewline(text);
      if i == |text| then [text]
      else [if i > 0 && text[i - 1] == '\r' then text[..i - 1] else text[..i]] + Lines(text[i + 1..])
  }

  function FirstNewline(text: string): (i: nat)
    ensures i <= |text|
  {
    if text == "" || text[0] == '\n' then 0 else 1 + FirstNewline(text[1..])
  }

  /** What the frames after the handshake forward, up to a completion. */
  function ForwardedLines(frames: seq<LogFrame>, lossy: seq<Byte> -> string): seq<string> {
    if frames == [] then [] else
      match frames[0].stream
      case Complete => []
      case Handshake => ForwardedLines(frames[1..], lossy)
      case _ => FrameLines(frames[0], lossy) + ForwardedLines(frames[1..], lossy)
  }

  /** Frames forward their lines in order, up to the first completion; a handshake
      forwards nothing. */
  lemma {:induction false} ForwardedConcat(a: seq<LogFrame>, b: seq<LogFrame>, lossy: seq<Byte> -> string)
    ensures ForwardedLines(a + b, lossy)
            == if exists i :: 0 <= i < |a| && a[i].stream == Complete then ForwardedLines(a, lossy)
               else ForwardedLines(a, lossy) + ForwardedLines(b, lossy)
  {
    hide FrameLines;
    if a == [] {
      assert a + b == b;
    } else {
      assert (a + b)[1..] == a[1..] + b;
      ForwardedConcat(a[1..], b, lossy);
      if a[0].stream != Complete {
        assert forall i | 0 <= i < |a[1..]| :: a[1..][i] == a[i + 1];
        assert forall i | 0 < i < |a| :: a[i] == a[1..][i - 1];
      }
    }
  }

  /** A frame of output forwards each of its lines behind the name of its stream. */
  lemma ForwardedSingle(frame: LogFrame, lossy: seq<Byte> -> string)
    ensures var (out, lines) := (ForwardedLines([frame], lossy), Lines(lossy(frame.payload)));
            if frame.stream == Handshake || frame.stream == Complete then out == [] else
              && |out| == |lines|
              && forall i | 0 <= i < |lines| ::
                   out[i] == (if frame.stream == Stdout then "[vsock:stdout] " else "[vsock:stderr] ") + lines[i]
  {
    assert [frame][1..] == [];
    assert ForwardedLines([], lossy) == [];
  }

  /** Lines with a line end behind each. */
  function Terminated(lines: seq<string>, end: string): string {
    if lines == [] then "" else lines[0] + end + Terminated(lines[1..], end)
  }

  /** Lines written with a newline, or with a carriage return and a newline, are read
      back, whether or not the last one is terminated. */
  lemma {:induction false} LinesReadBack(lines: seq<string>, end: string, rest: string)
    requires end == "\n" || end == "\r\n"
    requires forall i | 0 <= i < |lines| :: '\n' !in lines[i] && (lines[i] == "" || lines[i][|lines[i]| - 1] != '\r')
    requires '\n' !in rest
    ensures Lines(Terminated(lines, end) + rest) == lines + if rest == "" then [] else [rest]
  {
    hide Lines;
    if lines == [] {
      NoNewline(rest);
      assert "" + rest == rest;
    } else {
      var more := Terminated(lines[1..], end) + rest;
      LinesReadBack(lines[1..], end, rest);
      LineReadBack(lines[0], end, more);
      Regroup(lines[0] + end, Terminated(lines[1..], end), rest);
      ConsBack(lines, if rest == "" then [] else [rest]);
    }
  }

  lemma Regroup(a: string, b: string, c: string)
    ensures a + b + c == a + (b + c)
  {
  }

  lemma ConsBack(lines: seq<string>, more: seq<string>)
    requires lines != []
    ensures [lines[0]] + (lines[1..] + more) == lines + more
  {
  }

  lemma LineReadBack(line: string, end: string, more: string)
    requires end == "\n" || end == "\r\n"
    requires '\n' !in line && (line == "" || line[|line| - 1] != '\r')
    ensures Lines(line + end + more) == [line] + Lines(more)
  {
    var text := line + end + more;
    var full := if end == "\n" then line else line + "\r";
    assert text == full + "\n" + more;
    FirstNewlineAt(full, more);
    assert text[|full| + 1..] == more && text[..|line|] == line;
    assert |full| > 0 ==> text[|full| - 1] == full[|full| - 1];
  }

  lemma {:induction false} FirstNewlineAt(full: string, more: string)
    requires '\n' !in full
    ensures FirstNewline(full + "\n" + more) == |full|
  {
    if full != "" {
      assert full[0] in full;
      assert (full + "\n" + more)[1..] == full[1..] + "\n" + more;
      FirstNewlineAt(full[1..], more);
    }
  }

  lemma {:induction false} NoNewline(text: string)
    requires '\n' !in text
    ensures FirstNewline(text) == |text| && Lines(text) == if text == "" then [] else [text]
  {
    if text != "" {
      assert text[0] in text;
      NoNewline(text[1..]);
    }
  }

  /** A bounded channel whose receiver goes away after `lifetime` lines. */
  class LogChannel {
    const lifetime: nat
    var lines: seq<string>

    constructor (lifetime: nat)
      ensures this.lifetime == lifetime && lines == []
    {
      this.lifetime := lifetime;
      lines := [];
    }

    function Room(): nat
      reads this
    {
      if |lines| < lifetime then lifetime - |lines| else 0
    }

    method Send(line: string) returns (ok: bool)
      modifies this
      ensures ok == (old(Room()) > 0)
      ensures lines == if ok then old(lines) + [line] else old(lines)
    {
      ok := |lines| < lifetime;
      if ok {
        lines := lines + [line];
      }
    }

    /** Send the lines in order until one is refused. */
    method SendAll(more: seq<string>) returns (ok: bool)
      modifies this
      ensures ok == (|more| <= old(Room()))
      ensures lines == old(lines) + more[..Least(old(Room()), |more|)]
    {
      var i := 0;
      while i < |more|
        invariant 0 <= i <= |more| && i <= old(Room())
        invariant lines == old(lines) + more[..i]
      {
        var sent := Send(more[i]);
        if !sent {
          return false;
        }
        i := i + 1;
      }
      return true;
    }
  }

  function Least(a: nat, b: nat): nat {
    if a < b then a else b
  }

  lemma DistinctConcat<T>(a: seq<T>, b: seq<T>)
    requires Distinct(a) && Distinct(b) && forall x | x in a :: x !in b
    ensures Distinct(a + b)
  {
    var s := a + b;
    forall i, j | 0 <= i < j < |s| ensures s[i] != s[j] {
      assert i < |a| ==> a[i] in a;
      assert j >= |a| ==> s[j] == b[j - |a|] && b[j - |a|] in b;
    }
  }

  class Hub {
    var senders: map<TaskId, LogChannel>
    var completions: map<TaskId, seq<Subscriber>>
    /** Completion signals sent so far, oldest first. */
    var fired: seq<Subscriber>
    var next: Subscriber

    /** Every subscriber waits in one place or was signalled once. */
    ghost predicate Valid()
      reads this
    {
      && Distinct(fired)
      && (forall k | k in fired :: k < next)
      && (forall t | t in completions :: Distinct(completions[t]))
      && (forall t, k | t in completions && k in completions[t] :: k < next)
      && (forall t, k | t in completions && k in completions[t] :: k !in fired)
      && (forall t, u, k | t in completions && u in completions && k in completions[t] && k in completions[u] :: t == u)
    }

    constructor ()
      ensures Valid() && senders == map[] && completions == map[] && fired == []
    {
      senders, completions, fired, next := map[], map[], [], 0;
    }

    function Waiting(t: TaskId): seq<Subscriber>
      reads this
    {
      if t in completions then completions[t] else []
    }

    method Register(t: TaskId, tx: LogChannel)
      requires Valid()
      modifies this`senders
      ensures Valid() && senders == old(senders)[t := tx]
    {
      senders := senders[t := tx];
    }

    /** Forget a task; its subscribers are dropped without a signal. */
    method Unregister(t: TaskId)
      requires Valid()
      modifies this`senders, this`completions
      ensures Valid() && senders == old(senders) - {t} && completions == old(completions) - {t}
    {
      senders := senders - {t};
      completions := completions - {t};
    }

    method SubscribeCompletion(t: TaskId) returns (k: Subscriber)
      requires Valid()
      modifies this`completions, this`next
      ensures Valid() && completions == old(completions)[t := old(Waiting(t)) + [k]]
      ensures k !in fired && forall u | u in old(completions) :: k !in old(completions)[u]
    {
      k := next;
      var waiting := Waiting(t);
      ghost var was := completions;
      assert forall u, j | u in was && j in was[u] :: j < k;
      assert forall j | j in waiting :: t in completions && j in completions[t];
      DistinctConcat(waiting, [k]);
      next := next + 1;
      completions := completions[t := waiting + [k]];
      assert forall j | j in completions[t] :: j in waiting || j == k;
      assert forall u | u in completions && u != t :: completions[u] == was[u];
    }

    /** Signal every subscriber of the task and forget them. */
    method NotifyCompletion(t: TaskId)
      requires Valid()
      modifies this`completions, this`fired
      ensures Valid() && completions == old(completions) - {t} && fired == old(fired) + old(Waiting(t))
    {
      if t in completions {
        DistinctConcat(fired, completions[t]);
        fired := fired + completions[t];
        completions := completions - {t};
      }
    }

    /** What a connection that sends `bytes` does. It has an effect only if the
        first frame is a handshake of a registered task. Then the lines of the
        frames up to a completion, the end of the stream or the first malformed
        frame reach the channel in order, as far as there is a receiver; and
        the subscribers are signalled exactly if no line was refused. */
    method HandleConnection(stream: Reader, lossy: seq<Byte> -> string)
      requires Valid()
      modifies stream, this`completions, this`fired, senders.Values
      ensures Valid()
      ensures var frames := DecodeStream(old(stream.rest)).0;
              if frames == [] || !frames[0].stream.Handshake? || lossy(frames[0].payload) !in senders then
                && completions == old(completions) && fired == old(fired)
                && forall u | u in senders :: senders[u].lines == old(senders[u].lines)
              else
                var t := lossy(frames[0].payload);
                var all := ForwardedLines(frames[1..], lossy);
                && senders[t].lines == old(senders[t].lines) + all[..Least(old(senders[t].Room()), |all|)]
                && (forall u | u in senders && senders[u] != senders[t] :: senders[u].lines == old(senders[u].lines))
                && (if |all| <= old(senders[t].Room())
                    then completions == old(completions) - {t} && fired == old(fired) + old(Waiting(t))
                    else completions == old(completions) && fired == old(fired))
    {
      hide DecodeOne, FrameLines;
      var first := Decode(stream);
      if first.Err? || first.value.None? || !first.value.value.stream.Handshake? {
        return;
      }
      var t := lossy(first.value.value.payload);
      if t !in senders {
        return;
      }
      var tx := senders[t];
      ghost var frames := DecodeStream(old(stream.rest)).0;
      assert frames[1..] == DecodeStream(stream.rest).0;
      var open := Forward(stream, tx, lossy);
      if open {
        NotifyCompletion(t);
      }
    }
  }

  /** What is left to forward of a stream. */
  function Remaining(bytes: seq<Byte>, lossy: seq<Byte> -> string): seq<string> {
    ForwardedLines(DecodeStream(bytes).0, lossy)
  }

  lemma RemainingStep(bytes: seq<Byte>, lossy: seq<Byte> -> string)
    ensures var (r, rest) := DecodeOne(bytes);
            Remaining(bytes, lossy) ==
              if r.Err? || r.value.None? || r.value.value.stream.Complete? then []
              else if r.value.value.stream.Handshake? then Remaining(rest, lossy)
              else FrameLines(r.value.value, lossy) + Remaining(rest, lossy)
  {
    hide DecodeOne, FrameLines;
    var (r, rest) := DecodeOne(bytes);
    if r.Ok? && r.value.Some? {
      assert DecodeStream(bytes).0[1..] == DecodeStream(rest).0;
    }
  }

  lemma {:induction false} FewerFramesForwardPrefix(frames: seq<LogFrame>, k: nat, lossy: seq<Byte> -> string)
    requires k <= |frames|
    ensures ForwardedLines(frames[..k], lossy) <= ForwardedLines(frames, lossy)
  {
    hide FrameLines;
    if k > 0 {
      assert frames[..k][1..] == frames[1..][..k - 1];
      FewerFramesForwardPrefix(frames[1..], k - 1, lossy);
    }
  }

  /** A guest whose connection is lost after any number of bytes has forwarded a
      prefix of its lines, the complete frames in full. */
  lemma CutForwardsPrefix(frames: seq<LogFrame>, cut: nat, lossy: seq<Byte> -> string)
    requires forall i | 0 <= i < |frames| :: frames[i].Fits()
    requires cut <= |EncodeAll(frames)|
    ensures Remaining(EncodeAll(frames)[..cut], lossy) == ForwardedLines(frames[..WholeFrames(frames, cut)], lossy)
    ensures Remaining(EncodeAll(frames)[..cut], lossy) <= ForwardedLines(frames, lossy)
  {
    StreamCut(frames, cut);
    FewerFramesForwardPrefix(frames, WholeFrames(frames, cut), lossy);
  }

  /** Forward the frames that are left to `tx`; false if its receiver is gone before
      the last line. */
  method Forward(stream: Reader, tx: LogChannel, lossy: seq<Byte> -> string) returns (open: bool)
    modifies stream, tx
    ensures var all := Remaining(old(stream.rest), lossy);
            && tx.lines == old(tx.lines) + all[..Least(old(tx.Room()), |all|)]
            && open == (|all| <= old(tx.Room()))
  {
    hide DecodeOne, FrameLines, Remaining;
    ghost var all := Remaining(stream.rest, lossy);
    ghost var sent: seq<string> := [];
    while true
      invariant all == sent + Remaining(stream.rest, lossy)
      invariant tx.lines == old(tx.lines) + sent && tx.Room() == old(tx.Room()) - |sent|
      decreases |stream.rest|
    {
      RemainingStep(stream.rest, lossy);
      var r := Decode(stream);
      if r.Err? || r.value.None? || r.value.value.stream.Complete? {
        assert all == sent && all[..|all|] == all;
        return true;
      }
      if !r.value.value.stream.Handshake? {
        ghost var lines, rest := FrameLines(r.value.value, lossy), Remaining(stream.rest, lossy);
        PartlySent(old(tx.lines), all, sent, lines, rest, Least(tx.Room(), |lines|));
        var ok := tx.SendAll(FrameLines(r.value.value, lossy));
        if !ok {
          return false;
        }
        sent := sent + lines;
      }
    }
    return true;
  }

  /** The first `k` of the next lines follow what was sent. */
  lemma PartlySent(before: seq<string>, all: seq<string>, sent: seq<string>, lines: seq<string>, rest: seq<string>,
                   k: nat)
    requires all == sent + (lines + rest) && k <= |lines|
    ensures before + sent + lines[..k] == before + all[..|sent| + k]
    ensures all == sent + lines + rest
    ensures k == |lines| ==> before + sent + lines[..k] == before + (sent + lines)
  {
    assert all[..|sent| + k] == sent + lines[..k];
  }
}
