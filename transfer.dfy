/**
 * Both halves together: the messages `sendFile` writes on a channel
 * labelled with the file's name, delivered in order to the handler that
 * `listenFile` installs on the peer's side of that channel.
 */
module FileTransfer {
  import opened Messages
  import opened FileSender
  import opened FileReceiver

  /**
   * A fresh receiver that is fed the sender's messages downloads exactly
   * the original bytes, under the file's name, once, and closes the
   * channel; any message that would follow is never delivered.
   */
  lemma EndToEnd(name: string, file: seq<byte>, later: seq<Message>)
    ensures Run(Initial(name), SenderMessages(file) + later) ==
      RxState(name, Frames(Chunks(file, MaxSize)), [Download(name, file)], true)
  {
    SentinelDownloadsOnce(Initial(name), Chunks(file, MaxSize), later);
    FlattenChunks(file, MaxSize);
  }

  /** An empty file: only the sentinel travels, and an empty file is downloaded. */
  lemma EmptyFile(name: string)
    ensures SenderMessages([]) == [Text(EndOfFile)]
    ensures Run(Initial(name), SenderMessages([])) == RxState(name, [], [Download(name, [])], true)
  {
    assert Chunks([], MaxSize) == [];
    EndToEnd(name, [], []);
    assert SenderMessages([]) + [] == SenderMessages([]);
  }

  /**
   * The receiver does not defend against reordering: if the first two
   * slices of a file arrive swapped, they are assembled swapped, not
   * refused, and the download equals the file only when the two slices
   * happen to commute.
   */
  lemma ReorderedChunksCorrupt(name: string, file: seq<byte>)
    requires |Chunks(file, MaxSize)| >= 2
    ensures var c := Chunks(file, MaxSize);
      Run(Initial(name), Frames([c[1], c[0]] + c[2..]) + [Text(EndOfFile)]).downloads ==
        [Download(name, c[1] + c[0] + Flatten(c[2..]))]
    ensures var c := Chunks(file, MaxSize);
      (c[1] + c[0] + Flatten(c[2..]) == file) <==> (c[1] + c[0] == c[0] + c[1])
  {
    var c := Chunks(file, MaxSize);
    var rest := c[2..];
    var swapped := [c[1], c[0]] + rest;
    SentinelDownloadsOnce(Initial(name), swapped, []);
    assert Frames(swapped) + [Text(EndOfFile)] + [] == Frames(swapped) + [Text(EndOfFile)];
    assert swapped == [c[1]] + ([c[0]] + rest);
    FlattenCons(c[1], [c[0]] + rest);
    FlattenCons(c[0], rest);
    assert c == [c[0]] + ([c[1]] + rest);
    FlattenCons(c[0], [c[1]] + rest);
    FlattenCons(c[1], rest);
    FlattenChunks(file, MaxSize);
    var tail := Flatten(rest);
    assert Flatten(swapped) == c[1] + c[0] + tail;
    assert Run(Initial(name), Frames(swapped) + [Text(EndOfFile)]).downloads ==
      [Download(name, c[1] + c[0] + tail)];
    assert file == c[0] + c[1] + tail;
    var n := |c[0]| + |c[1]|;
    if c[1] + c[0] + tail == file {
      assert (c[1] + c[0] + tail)[..n] == c[1] + c[0];
      assert (c[0] + c[1] + tail)[..n] == c[0] + c[1];
    }
  }

  /**
   * A slice lost on the way goes unnoticed: the receiver still downloads
   * once and closes the channel, and the file it hands on is the other
   * slices laid end to end, shorter than the original by the lost bytes.
   */
  lemma DroppedFrameUnnoticed(name: string, file: seq<byte>, j: nat)
    requires j < |Chunks(file, MaxSize)|
    ensures var c := Chunks(file, MaxSize);
      var r := Run(Initial(name), Frames(c[..j] + c[j + 1..]) + [Text(EndOfFile)]);
      r.closed && |r.downloads| == 1 && r.downloads[0].name == name &&
      r.downloads[0].bytes == Flatten(c[..j]) + Flatten(c[j + 1..]) &&
      |r.downloads[0].bytes| == |file| - |c[j]| < |file|
  {
    var c := Chunks(file, MaxSize);
    var kept := c[..j] + c[j + 1..];
    SentinelDownloadsOnce(Initial(name), kept, []);
    assert Frames(kept) + [Text(EndOfFile)] + [] == Frames(kept) + [Text(EndOfFile)];
    FlattenAppend(c[..j], c[j + 1..]);
    assert c == c[..j] + ([c[j]] + c[j + 1..]);
    FlattenAppend(c[..j], [c[j]] + c[j + 1..]);
    FlattenCons(c[j], c[j + 1..]);
    FlattenChunks(file, MaxSize);
    ChunkSizes(file, MaxSize);
  }

  /**
   * One whole transfer: the sender writes its messages, a new receiver for
   * the channel labelled `name` handles them in order, and what the
   * receiver downloads is returned.
   */
  method Transfer(name: string, file: seq<byte>) returns (downloads: seq<Download>)
    ensures downloads == [Download(name, file)]
  {
    var sent := SendFile(file);
    var receiver := new Receiver(name);
    Dispatch(receiver, sent);
    EndToEnd(name, file, []);
    assert sent + [] == sent;
    downloads := receiver.downloads;
  }
}
