/**
 * What travels on a file-transfer data channel of the meeting service:
 * the unit of data (a byte), the two kinds of message a data channel
 * delivers, and the two constants of the transfer protocol.
 */
module Messages {

  /** One octet of a file or of an ArrayBuffer. */
  newtype byte = x: int | 0 <= x < 256

  /**
   * A data-channel message. With `binaryType = 'arraybuffer'` a binary
   * message arrives as an ArrayBuffer, whose bytes are modelled by `bytes`;
   * a message sent as a string arrives as a string.
   */
  datatype Message = Binary(bytes: seq<byte>) | Text(text: string)

  datatype Option<T> = None | Some(value: T)

  /** The fixed chunk size the sender uses (`MeetService.MAX_SIZE`). */
  const MaxSize: nat := 65535

  /** The end-of-stream marker (`MeetService.END_OF_FILE`). */
  const EndOfFile: string := "EOF"

  /**
   * The receiver's test `data !== END_OF_FILE`, negated. A strict
   * comparison between an ArrayBuffer and a string is never equal, and
   * two strings are equal exactly when they have the same characters, so
   * only the text message "EOF" is the sentinel.
   */
  predicate IsEndOfFile(m: Message)
    ensures IsEndOfFile(m) <==> m == Text(EndOfFile)
    ensures m.Binary? ==> !IsEndOfFile(m)
  {
    match m
    case Binary(_) => false
    case Text(s) => s == EndOfFile
  }

  /**
   * The binary messages that carry `chunks`, one message per chunk, in
   * the same order.
   */
  function Frames(chunks: seq<seq<byte>>): (ms: seq<Message>)
  {
    seq(|chunks|, k requires 0 <= k < |chunks| => Binary(chunks[k]))
  }

  /**
   * The bytes of a sequence of buffers laid end to end, folded from the
   * left as `Array.prototype.reduce` folds: the last buffer is appended
   * to the concatenation of the ones before it.
   */
  function Flatten(chunks: seq<seq<byte>>): seq<byte>
  {
    if chunks == [] then [] else Flatten(chunks[..|chunks| - 1]) + chunks[|chunks| - 1]
  }

  /** The sum of the byte lengths of `chunks`. */
  function TotalLength(chunks: seq<seq<byte>>): nat
  {
    if chunks == [] then 0 else |chunks[0]| + TotalLength(chunks[1..])
  }

  /** The left fold agrees with a right fold: the first buffer comes first. */
  lemma {:induction false} FlattenCons(c: seq<byte>, chunks: seq<seq<byte>>)
    ensures Flatten([c] + chunks) == c + Flatten(chunks)
    decreases |chunks|
  {
    if chunks == [] {
      assert ([c] + chunks)[..0] == [];
    } else {
      var init := chunks[..|chunks| - 1];
      assert ([c] + chunks)[..|chunks|] == [c] + init;
      FlattenCons(c, init);
    }
  }

  /** Concatenating buffers yields as many bytes as the buffers hold together. */
  lemma {:induction false} FlattenLength(chunks: seq<seq<byte>>)
    ensures |Flatten(chunks)| == TotalLength(chunks)
    decreases |chunks|
  {
    if chunks != [] {
      assert chunks == [chunks[0]] + chunks[1..];
      FlattenCons(chunks[0], chunks[1..]);
      FlattenLength(chunks[1..]);
    }
  }

  /** Laying out two lists of buffers one after the other lays out their bytes one after the other. */
  lemma {:induction false} FlattenAppend(xs: seq<seq<byte>>, ys: seq<seq<byte>>)
    ensures Flatten(xs + ys) == Flatten(xs) + Flatten(ys)
    decreases |ys|
  {
    if ys == [] {
      assert xs + ys == xs;
    } else {
      var init := ys[..|ys| - 1];
      assert (xs + ys)[..|xs + ys| - 1] == xs + init;
      FlattenAppend(xs, init);
    }
  }
}
