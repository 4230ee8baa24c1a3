# Chunked file transfer of the meeting service

This project models the peer-to-peer file transfer of `MeetService`, the
Angular service of the meeting web application. It proves properties of the
model.

A transfer has two halves:

- **Sender.** `sendFile` waits for the data channel to open. It then cuts the
  file into consecutive `slice(i, i + 65535)` pieces and sends each piece as a
  binary message. After the last piece it sends the text message `"EOF"`.
- **Receiver.** `listenFile` installs a `message` handler on every incoming
  data channel. The handler files every message other than `"EOF"` in
  `receiveBuffers`. On `"EOF"` it concatenates the filed buffers with a
  `reduce`. Each reduce step allocates a `Uint8Array` and copies into it at
  two offsets. The handler then downloads the result under the channel's
  label and closes the channel.

The channel is modelled as an ordered sequence of messages. A message is
`Binary(bytes)` or `Text(string)`.

Modules:

- `Messages` (`messages.dfy`): the byte type, the message type, the constants
  `MaxSize = 65535` and `EndOfFile = "EOF"`, the sentinel test, and the
  concatenation of a list of buffers.
- `FileSender` (`sender.dfy`): the slicing, as the specification function
  `Chunks`. `SendFile` is the imperative sending loop, proved equal to that
  function.
- `FileReceiver` (`receiver.dfy`): the reduce, specified by the function
  `Reassemble` and implemented over arrays (`SetAt`, `Concat`, `Assemble`).
  The handler's state is the class `Receiver` with its method `OnMessage`.
  The pure transition `Step` specifies `OnMessage`. `Run` is the host
  delivering messages in order until the channel closes, and the method
  `Dispatch` implements it.
- `FileTransfer` (`transfer.dfy`): both halves together.

How the model reads the code:

- **The sentinel check works.** The test at line 85, `data !== END_OF_FILE`,
  could be read as comparing an ArrayBuffer with a string, which would be
  always true. But a string sent on a data channel arrives as a string;
  `binaryType = 'arraybuffer'` affects only binary messages. So the test is
  false exactly for the text `"EOF"`. The model follows this reading
  (`IsEndOfFile`).
- **The chunk size is fixed.** The chunk size is the constant 65535
  (line 8). The negotiated `sctp.maxMessageSize` read at line 58 is never
  used, and the model does not use it either.

## Model

| member | source | states |
|---|---|---|
| `Messages.IsEndOfFile` | apps/webapp/src/app/meet/meet.service.ts:84-85 | a message counts as the sentinel exactly when it is the text "EOF"; no binary message is ever the sentinel |
| `Messages.FlattenCons` | apps/webapp/src/app/meet/meet.service.ts:88-95 | the left-to-right reduce puts the first buffer first: concatenating `[c] + cs` gives `c` followed by the concatenation of `cs` |
| `Messages.Flatten` | apps/webapp/src/app/meet/meet.service.ts:88-95 | the bytes the reduce builds: a left fold that appends each buffer to the concatenation of those before it, starting from the empty array (its properties are `FlattenCons`, `FlattenAppend` and `FlattenLength`) |
| `Messages.FlattenAppend` | apps/webapp/src/app/meet/meet.service.ts:88-95 | concatenating the buffers of `xs + ys` gives the concatenation of `xs` followed by that of `ys` |
| `Messages.FlattenLength` | apps/webapp/src/app/meet/meet.service.ts:88-95 | the concatenation, started from the empty array, is as long as the sum of the buffer lengths |
| `FileSender.Slice` | apps/webapp/src/app/meet/meet.service.ts:64 | `slice(begin, end)` clamps both bounds: byte k of the copy is byte begin+k of the buffer; the copy is end-begin bytes long when end lies within the buffer and runs to the buffer's end otherwise |
| `FileSender.ChunksFrom` | apps/webapp/src/app/meet/meet.service.ts:63-64 | the pieces the loop sends from index `i` on: `slice(i, i + size)`, then the pieces from `i + size`, until the index reaches the buffer's length; `Chunks` is this from index 0 |
| `FileSender.Chunks` | apps/webapp/src/app/meet/meet.service.ts:63-64 | the pieces the loop sends starting from index 0 (its properties are `ChunkSizes`, `ChunkCount`, `ChunkAt` and `FlattenChunks`) |
| `FileSender.SenderMessages` | apps/webapp/src/app/meet/meet.service.ts:63-66 | the whole sequence written on the channel: one more message than there are pieces, piece k as binary message k, and the text "EOF" last |
| `FileSender.ChunkSizes` | apps/webapp/src/app/meet/meet.service.ts:63-64 | with `size` the constant `MAX_SIZE` of line 8: every piece has between 1 and `size` bytes; every piece except the last has exactly `size` bytes |
| `FileSender.ChunkCount` | apps/webapp/src/app/meet/meet.service.ts:60-65 | an N-byte buffer gives ceil(N / size) pieces; there are no pieces exactly when N = 0 |
| `FileSender.ChunkAt` | apps/webapp/src/app/meet/meet.service.ts:63-64 | piece k is the bytes from offset k·size up to (k+1)·size or the end of the buffer, so the pieces are contiguous, disjoint and in increasing offset order |
| `FileSender.FlattenChunks` | apps/webapp/src/app/meet/meet.service.ts:63-64 | concatenating the pieces in the order they are sent gives back the buffer, byte for byte |
| `FileSender.SingleChunk` | apps/webapp/src/app/meet/meet.service.ts:63-64 | a non-empty buffer of at most `size` bytes, including one of exactly `size` bytes, is sent as a single piece |
| `FileSender.FullChunkAndOneByte` | apps/webapp/src/app/meet/meet.service.ts:63-64 | a buffer of `size`+1 bytes is sent as a `size`-byte piece followed by a 1-byte piece |
| `FileSender.SendFile` | apps/webapp/src/app/meet/meet.service.ts:58-66 | the loop sends exactly the pieces of `Chunks(file, 65535)` as binary messages, then the sentinel: ceil(N / 65535) + 1 messages, the sentinel exactly once and last, every earlier message binary with 1 to 65535 bytes |
| `FileReceiver.Append` | apps/webapp/src/app/meet/meet.service.ts:88-95 | a reduce step on a binary entry gives `acc.byteLength + chunk.byteLength` bytes, with `acc` as prefix and the chunk as suffix; a step on a text entry fails |
| `FileReceiver.Reassemble` | apps/webapp/src/app/meet/meet.service.ts:88-95 | the reduce over the filed messages succeeds exactly when every filed message is binary |
| `FileReceiver.ReassembleFrames` | apps/webapp/src/app/meet/meet.service.ts:88-95 | reducing binary messages gives their bytes laid end to end, in arrival order |
| `FileReceiver.ReassembleLength` | apps/webapp/src/app/meet/meet.service.ts:88-95 | reducing binary messages always succeeds, and the result is as long as the sum of the chunk lengths |
| `FileReceiver.Initial` | apps/webapp/src/app/meet/meet.service.ts:81 | a newly announced channel's state: empty `receiveBuffers`, no download, channel open (the `Receiver` constructor establishes it) |
| `FileReceiver.Step` | apps/webapp/src/app/meet/meet.service.ts:85-98 | a non-sentinel message is appended to `receiveBuffers`, earlier entries unchanged, nothing downloaded, channel state unchanged. On the sentinel, `receiveBuffers` is unchanged; if the reduce succeeds, exactly one download is added, with the channel's label and the reduced bytes, and the channel closes; if it fails, nothing changes |
| `FileReceiver.Run` | apps/webapp/src/app/meet/meet.service.ts:82-99 | the host handing messages to the handler in order until they run out or the channel closes: a closed channel's state does not change, earlier downloads stay, at most one download is added whatever the messages, and an open channel ends closed exactly when a download was added |
| `FileReceiver.RunAppend` | apps/webapp/src/app/meet/meet.service.ts:82-99 | handling the messages of `a` and then those of `b` is the same as handling `a + b` |
| `FileReceiver.NoSentinelNoDownload` | apps/webapp/src/app/meet/meet.service.ts:85-86 | while no sentinel arrives, messages are only appended to `receiveBuffers`: the channel stays open and nothing is downloaded, so a stream cut off before the sentinel never reaches `downloadFile` |
| `FileReceiver.SentinelDownloadsOnce` | apps/webapp/src/app/meet/meet.service.ts:85-98 | binary messages followed by the sentinel give exactly one download, the concatenation of the chunks (empty if there are none); the channel is closed and later messages are not delivered |
| `FileReceiver.SetAt` | apps/webapp/src/app/meet/meet.service.ts:92-93 | `set(src, offset)` copies `src` into the target at `offset` and leaves the rest unchanged; if `src` does not fit, it fails and changes nothing |
| `FileReceiver.Concat` | apps/webapp/src/app/meet/meet.service.ts:89-94 | the reduce callback returns a fresh array of `acc.byteLength + chunk.byteLength` bytes holding `acc` followed by the chunk |
| `FileReceiver.Assemble` | apps/webapp/src/app/meet/meet.service.ts:88-95 | the array-based reduce succeeds exactly when `Reassemble` does, and it then yields the same bytes |
| `FileReceiver.Receiver.constructor` | apps/webapp/src/app/meet/meet.service.ts:81 | a new channel's handler starts with empty `receiveBuffers`, no download and an open channel |
| `FileReceiver.Receiver.OnMessage` | apps/webapp/src/app/meet/meet.service.ts:82-99 | the handler's new state is `Step` of its old state and the message |
| `FileReceiver.Dispatch` | apps/webapp/src/app/meet/meet.service.ts:82-99 | handing the messages to the handler in order, until they run out or the channel closes, leaves the receiver in the state `Run` gives |
| `FileTransfer.EndToEnd` | apps/webapp/src/app/meet/meet.service.ts:63-98 | a fresh receiver fed the sender's messages, followed by anything at all, downloads exactly the original bytes, once, under the file's name, and closes the channel |
| `FileTransfer.EmptyFile` | apps/webapp/src/app/meet/meet.service.ts:60-98 | a zero-byte file is sent as the sentinel alone, and the receiver downloads an empty file |
| `FileTransfer.ReorderedChunksCorrupt` | apps/webapp/src/app/meet/meet.service.ts:85-95 | for every file of two or more pieces, delivering the first two pieces swapped downloads them swapped, not refused; the download equals the file only when the two pieces commute |
| `FileTransfer.DroppedFrameUnnoticed` | apps/webapp/src/app/meet/meet.service.ts:85-95 | the channel, opened with `maxPacketLifeTime` at lines 48-51, may drop a message, and the handler does not check what it files: whichever piece is lost, the receiver still downloads once and closes the channel, and its file is the remaining pieces laid end to end, shorter than the original by the lost piece |
| `FileTransfer.Transfer` | apps/webapp/src/app/meet/meet.service.ts:47-99 | sending a file and handing the messages to a new receiver results in exactly one download: the file's name and its bytes |

## Left out

- Speech recognition and caption cues (`createTextTrack`, lines 11-45): these only wire browser APIs together, and cue timing uses floating point.
- Creating channels, registering `open`/`error`/`datachannel` listeners, logging and `connection.sctp` (lines 23-30, 52-58, 71-80): this is WebRTC plumbing. The channel is modelled as an ordered message sequence, and the unused second channel `recchannel` (line 71) is not modelled.
- FileTransfer.EndToEnd: the sender's channel is opened with `ordered: true, maxPacketLifeTime: 3600` (lines 48-51), so it is ordered but only partially reliable: a message not delivered within 3.6 seconds is dropped. `EndToEnd` and `Transfer` assume that every sent message arrives. `DroppedFrameUnnoticed` shows what a lost piece does, and `NoSentinelNoDownload` what a lost sentinel does.
- FileTransfer.Transfer: assumes the same lossless channel as `EndToEnd`.
- The asynchronous `file.arrayBuffer()` read (line 59): the file is given as an already-read byte sequence.
- `Blob` construction and `downloadFile` (lines 96-97, 109-117): this is DOM work. Each call is recorded as a `Download` of the channel's label and the bytes.
- Failures while sending: `channel.send` on a channel that is not open, or that closes during the loop, throws inside the `open` listener. The sender is modelled as a channel that accepts every message.
- Messages arriving after the channel is closed: the host stops delivering them, so `Run` and `Dispatch` stop at the close. `OnMessage` itself does not check for a closed channel, just as the handler does not.
- FileReceiver.Append: a string left in `receiveBuffers` always makes the step fail. In the host, the step does fail when the accumulator is non-empty: the allocated array has length 0 and the copy overflows it. But when the accumulator is empty and the string converts to a length of 0 (any non-numeric text does), the host continues with an empty accumulator. Only a peer other than this sender can put such a string on the channel.
- FileReceiver.Reassemble: for the same reason, "succeeds exactly when every filed message is binary" is the model's rule, not the host's: on `[Text("x"), Binary(b)]` the host skips the string and reduces to `b`.
- FileReceiver.Assemble: its early return on a text entry follows `Reassemble`'s rule, so it too fails where the host would skip a leading string that converts to length 0.
- JavaScript numbers: the loop index is a double. It stays exact far beyond any `ArrayBuffer` length, so the model uses unbounded naturals.
- Concurrency: everything runs on the single-threaded event loop. Each channel's handler has its own `Receiver`, so there is nothing shared to model.
- An explicit Idle/Receiving/Complete/Failed transfer state: the code keeps no such state. `RxState` holds only what the handler holds: its buffers, its downloads and whether the channel is closed.
- libs/ui/components/src/lib/alert/confirm/confirm.dialog.ts: a dialog component with no behaviour. It is not part of this model.
