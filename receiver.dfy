/**
 * The receiving half of the file transfer (the `message` handler that
 * `MeetService.listenFile` installs on an incoming data channel): every
 * message other than the sentinel is pushed onto `receiveBuffers`; on the
 * sentinel the buffers are concatenated into one contiguous byte array,
 * handed to the download step under the channel's label, and the
 * channel is closed.
 */
module FileReceiver {
  import opened Messages

  /** A file handed to `downloadFile`: its name and its bytes. */
  datatype Download = Download(name: string, bytes: seq<byte>)

  /**
   * One step of the reduce: a fresh array of `acc.byteLength +
   * chunk.byteLength` bytes holding `acc` and then the chunk. A string
   * entry has no byte length, so the step fails (the array it allocates
   * is too short for what it has to copy) and the reduce is abandoned.
   */
  function Append(acc: seq<byte>, entry: Message): (r: Option<seq<byte>>)
    ensures r.Some? <==> entry.Binary?
    ensures r.Some? ==> |r.value| == |acc| + |entry.bytes|
    ensures r.Some? ==> r.value[..|acc|] == acc && r.value[|acc|..] == entry.bytes
  {
    match entry
    case Binary(chunk) => Some(acc + chunk)
    case Text(_) => None
  }

  /**
   * `receiveBuffers.reduce(step, new Uint8Array())`: a fold from the left,
   * starting from the empty array, that fails as soon as one step fails.
   * It succeeds exactly when every filed message is binary.
   */
  function Reassemble(buffers: seq<Message>): (r: Option<seq<byte>>)
    ensures r.Some? <==> forall k :: 0 <= k < |buffers| ==> buffers[k].Binary?
    decreases |buffers|
  {
    if buffers == [] then Some([])
    else
      var init := buffers[..|buffers| - 1];
      assert forall k :: 0 <= k < |init| ==> init[k] == buffers[k];
      match Reassemble(init)
      case None => None
      case Some(acc) => Append(acc, buffers[|buffers| - 1])
  }

  /** Reassembling binary messages gives their bytes laid end to end. */
  lemma {:induction false} ReassembleFrames(chunks: seq<seq<byte>>)
    ensures Reassemble(Frames(chunks)) == Some(Flatten(chunks))
    decreases |chunks|
  {
    if chunks != [] {
      var init := chunks[..|chunks| - 1];
      assert Frames(chunks)[..|chunks| - 1] == Frames(init);
      ReassembleFrames(init);
    }
  }

  /**
   * The bytes the receiver assembles number the sum of the chunk lengths
   * and hold the chunks in arrival order.
   */
  lemma ReassembleLength(chunks: seq<seq<byte>>)
    ensures Reassemble(Frames(chunks)).Some?
    ensures |Reassemble(Frames(chunks)).value| == TotalLength(chunks)
  {
    ReassembleFrames(chunks);
    FlattenLength(chunks);
  }

  /** The receiver's state: what `receiveBuffers` holds, what was downloaded, whether the channel is closed. */
  datatype RxState = RxState(channelLabel: string, receiveBuffers: seq<Message>, downloads: seq<Download>, closed: bool)

  /** A channel that has just been announced by the `datachannel` event. */
  function Initial(channelLabel: string): RxState
  {
    RxState(channelLabel, [], [], false)
  }

  /** What the `message` handler does with one message. */
  function Step(s: RxState, data: Message): (t: RxState)
    ensures t.channelLabel == s.channelLabel
    ensures !IsEndOfFile(data) ==>
      |t.receiveBuffers| == |s.receiveBuffers| + 1 &&
      t.receiveBuffers[..|s.receiveBuffers|] == s.receiveBuffers &&
      t.receiveBuffers[|s.receiveBuffers|..] == [data] &&
      t.downloads == s.downloads && t.closed == s.closed
    ensures IsEndOfFile(data) ==> t.receiveBuffers == s.receiveBuffers
    ensures IsEndOfFile(data) && Reassemble(s.receiveBuffers).Some? ==>
      |t.downloads| == |s.downloads| + 1 &&
      t.downloads[..|s.downloads|] == s.downloads &&
      t.downloads[|s.downloads|..] == [Download(s.channelLabel, Reassemble(s.receiveBuffers).value)] &&
      t.closed
    ensures IsEndOfFile(data) && Reassemble(s.receiveBuffers).None? ==> t == s
  {
    if !IsEndOfFile(data) then
      s.(receiveBuffers := s.receiveBuffers + [data])
    else
      match Reassemble(s.receiveBuffers)
      case Some(bytes) => s.(downloads := s.downloads + [Download(s.channelLabel, bytes)], closed := true)
      case None => s
  }

  /**
   * The host's delivery of `msgs` to the handler, in order; a closed
   * channel delivers no further messages.
   */
  function Run(s: RxState, msgs: seq<Message>): (r: RxState)
    ensures r.channelLabel == s.channelLabel
    ensures s.closed ==> r == s
    ensures |s.downloads| <= |r.downloads| <= |s.downloads| + 1
    ensures r.downloads[..|s.downloads|] == s.downloads
    ensures !s.closed ==> (r.closed <==> |r.downloads| == |s.downloads| + 1)
    decreases |msgs|
  {
    if msgs == [] || s.closed then s else Run(Step(s, msgs[0]), msgs[1..])
  }

  /** Delivering `a` and then `b` is delivering `a + b`. */
  lemma {:induction false} RunAppend(s: RxState, a: seq<Message>, b: seq<Message>)
    ensures Run(s, a + b) == Run(Run(s, a), b)
    decreases |a|
  {
    if a != [] && !s.closed {
      assert (a + b)[1..] == a[1..] + b;
      RunAppend(Step(s, a[0]), a[1..], b);
    } else if a == [] {
      assert a + b == b;
    }
  }

  /**
   * As long as the sentinel does not arrive, messages are only filed: the
   * channel stays open and nothing is downloaded. A channel that ends
   * before the sentinel therefore never hands a file on.
   */
  lemma {:induction false} NoSentinelNoDownload(s: RxState, msgs: seq<Message>)
    requires !s.closed
    requires forall k :: 0 <= k < |msgs| ==> !IsEndOfFile(msgs[k])
    ensures Run(s, msgs) == s.(receiveBuffers := s.receiveBuffers + msgs)
    decreases |msgs|
  {
    if msgs != [] {
      var t := Step(s, msgs[0]);
      assert t == s.(receiveBuffers := s.receiveBuffers + [msgs[0]]);
      NoSentinelNoDownload(t, msgs[1..]);
      assert s.receiveBuffers + [msgs[0]] + msgs[1..] == s.receiveBuffers + msgs;
    }
  }

  /**
   * On the sentinel, the filed binary messages become one download,
   * exactly once: the channel closes, so whatever follows is not delivered.
   * With nothing filed, the download is empty.
   */
  lemma {:induction false} SentinelDownloadsOnce(s: RxState, chunks: seq<seq<byte>>, later: seq<Message>)
    requires !s.closed && s.receiveBuffers == []
    ensures Run(s, Frames(chunks) + [Text(EndOfFile)] + later) ==
      s.(receiveBuffers := Frames(chunks), downloads := s.downloads + [Download(s.channelLabel, Flatten(chunks))], closed := true)
  {
    var frames := Frames(chunks);
    assert forall k :: 0 <= k < |frames| ==> !IsEndOfFile(frames[k]);
    RunAppend(s, frames, [Text(EndOfFile)] + later);
    NoSentinelNoDownload(s, frames);
    var filed := s.(receiveBuffers := frames);
    assert filed.receiveBuffers == s.receiveBuffers + frames;
    ReassembleFrames(chunks);
    assert ([Text(EndOfFile)] + later)[1..] == later;
    assert frames + [Text(EndOfFile)] + later == frames + ([Text(EndOfFile)] + later);
  }

  /**
   * `Uint8Array.prototype.set(src, offset)`: copies `src` into `dst` from
   * `offset` on, or fails (a RangeError) when `src` does not fit and
   * leaves `dst` as it was.
   */
  method SetAt(dst: array<byte>, src: seq<byte>, offset: nat) returns (ok: bool)
    modifies dst
    ensures ok <==> offset + |src| <= dst.Length
    ensures ok ==> dst[..] == old(dst[..offset]) + src + old(dst[offset + |src|..])
    ensures !ok ==> dst[..] == old(dst[..])
  {
    if offset + |src| > dst.Length {
      return false;
    }
    var j := 0;
    while j < |src|
      invariant 0 <= j <= |src|
      invariant forall k :: 0 <= k < offset ==> dst[k] == old(dst[k])
      invariant forall k :: 0 <= k < j ==> dst[offset + k] == src[k]
      invariant forall k :: offset + j <= k < dst.Length ==> dst[k] == old(dst[k])
    {
      dst[offset + j] := src[j];
      j := j + 1;
    }
    ok := true;
    assert dst[..] == old(dst[..offset]) + src + old(dst[offset + |src|..]);
  }

  /**
   * The body of the reduce callback: allocate `acc.byteLength +
   * chunk.byteLength` bytes, copy `acc` to offset 0 and `chunk` to offset
   * `acc.byteLength`.
   */
  method Concat(acc: array<byte>, chunk: seq<byte>) returns (tmp: array<byte>)
    ensures fresh(tmp)
    ensures tmp.Length == acc.Length + |chunk|
    ensures tmp[..] == acc[..] + chunk
  {
    tmp := new byte[acc.Length + |chunk|];
    var ok := SetAt(tmp, acc[..], 0);
    assert ok;
    ok := SetAt(tmp, chunk, acc.Length);
    assert ok;
  }

  /**
   * The whole reduce over `receiveBuffers`, starting from an empty array;
   * `ok` is false when a step throws, in which case the handler's `catch`
   * only logs.
   */
  method Assemble(buffers: seq<Message>) returns (ok: bool, out: array<byte>)
    ensures ok <==> Reassemble(buffers).Some?
    ensures ok ==> out[..] == Reassemble(buffers).value
  {
    out := new byte[0];
    var i := 0;
    assert buffers[..0] == [] && out[..] == [];
    while i < |buffers|
      invariant 0 <= i <= |buffers|
      invariant Reassemble(buffers[..i]) == Some(out[..])
    {
      assert buffers[..i + 1][..i] == buffers[..i];
      match buffers[i] {
        case Binary(chunk) =>
          out := Concat(out, chunk);
        case Text(_) =>
          assert !buffers[i].Binary?;
          return false, out;
      }
      i := i + 1;
    }
    assert buffers[..i] == buffers;
    ok := true;
  }

  /** The per-channel state the `message` handler closes over. */
  class Receiver {
    var channelLabel: string
    var receiveBuffers: seq<Message>
    var downloads: seq<Download>
    var closed: bool

    function State(): RxState
      reads this
    {
      RxState(channelLabel, receiveBuffers, downloads, closed)
    }

    constructor (channelLabel: string)
      ensures State() == Initial(channelLabel)
    {
      this.channelLabel := channelLabel;
      receiveBuffers := [];
      downloads := [];
      closed := false;
    }

    /** The `message` handler. */
    method OnMessage(data: Message)
      modifies this
      ensures State() == Step(old(State()), data)
    {
      if !IsEndOfFile(data) {
        receiveBuffers := receiveBuffers + [data];
      } else {
        var ok, bytes := Assemble(receiveBuffers);
        if ok {
          downloads := downloads + [Download(channelLabel, bytes[..])];
          closed := true;
        }
      }
    }
  }

  /**
   * The host's event loop for one channel: each message in turn raises a
   * `message` event, until the messages run out or the channel is closed.
   */
  method Dispatch(r: Receiver, msgs: seq<Message>)
    modifies r
    ensures r.State() == Run(old(r.State()), msgs)
  {
    var i := 0;
    while i < |msgs| && !r.closed
      invariant 0 <= i <= |msgs|
      invariant Run(old(r.State()), msgs) == Run(r.State(), msgs[i..])
    {
      assert msgs[i..][1..] == msgs[i + 1..];
      r.OnMessage(msgs[i]);
      i := i + 1;
    }
  }
}
