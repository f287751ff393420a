/**
 * Client code: what a caller of the transmission buffer can conclude from the
 * contracts alone, on the situations the server's DATA handling meets.
 */
module Scenarios {
  import opened Transparency
  import opened TransmissionBuffer
  import opened Wrappers

  /** ". CR LF" as the whole body ends the transmission with nothing to store. */
  method EmptyBody(maxLineLength: nat)
    requires maxLineLength > 0
  {
    var b := new TransparentTransmissionBuffer(false, maxLineLength);
    var isOpen := b.InitializeFile(true);
    b.Append([Dot, CR, LF]);
    assert b.transmissionEnded && b.buffer == [];
    var processed := b.Flush(true, false);
    assert !processed && b.fileWrites == [] && !b.fileOpen;
  }

  /** A line followed by ". CR LF" keeps the line, and the forced flush stores exactly that line. */
  method TrailingTerminator(line: seq<Byte>)
    requires 2 <= |line| <= 1000 && line[|line| - 2..] == [CR, LF] && Dot !in line
  {
    var b := new TransparentTransmissionBuffer(false, 1000);
    var isOpen := b.InitializeFile(true);
    var data := line + [Dot, CR, LF];
    assert data[|data| - 5..] == line[|line| - 2..] + [Dot, CR, LF] == EndOfData;
    assert data[..|data| - 3] == line;
    b.Append(data);
    assert b.transmissionEnded && b.buffer == line;
    NoDotsNoLeadingDots(line);
    NoLeadingDotsIdentity(line);
    assert line[..|line|] == line;
    var processed := b.Flush(true, false);
    assert processed && b.buffer == [] && b.lastSendEndedWithNewline && !b.fileOpen;
    assert b.flushed == line;
    assert b.fileWrites == [line];
  }

  /** A terminator split over two appends is still found. */
  method SplitTerminator(line: seq<Byte>)
    requires |line| >= 2 && line[|line| - 2..] == [CR, LF] && line[0] != Dot
  {
    var b := new TransparentTransmissionBuffer(false, 1000);
    var first := line + [Dot];
    assert first[0] == line[0] && (|first| >= 5 ==> first[|first| - 5..][4] == Dot);
    assert [] + first == first && !EndOfDataSeen(first);
    b.Append(first);
    assert !b.transmissionEnded;
    var joined := first + [CR, LF];
    assert joined[|joined| - 5..] == line[|line| - 2..] + [Dot, CR, LF] == EndOfData;
    b.Append([CR, LF]);
    assert b.transmissionEnded && b.buffer == line;
  }

  /**
   * An over-long run without a line feed is left alone by an unforced flush
   * while under the flush threshold, and cancels the transmission once forced.
   */
  method OverlongLine(data: seq<Byte>)
    requires 10 < |data| <= FlushThreshold && NoLineFeed(data, 0, |data|)
  {
    var b := new TransparentTransmissionBuffer(true, 10);
    var ok := b.InitializeConnection();
    b.Append(data);
    var processed := b.Flush(false, true);
    assert !processed && !b.cancelTransmission && b.buffer == data;
    processed := b.Flush(true, true);
    assert data[..|data|] == data;
    assert processed && b.cancelTransmission && b.buffer == [];
    assert !b.lastSendEndedWithNewline;
    assert b.flushed == data && |b.enqueued| == 1;
  }

  /**
   * Once end-of-data is seen, an unforced flush no longer returns early: a
   * body longer than the line limit cancels the transmission, even though it
   * ends in a line feed, and nothing reaches the file.
   */
  method EndedLongBody(body: seq<Byte>)
    requires 10 < |body| <= 1000
  {
    var b := new TransparentTransmissionBuffer(false, 10);
    var isOpen := b.InitializeFile(true);
    var data := body + [CR, LF, Dot, CR, LF];
    assert data[|data| - 5..] == EndOfData;
    assert data[..|data| - 3] == body + [CR, LF];
    b.Append(data);
    assert b.transmissionEnded && b.buffer == body + [CR, LF];
    var processed := b.Flush(false, false);
    assert processed && b.cancelTransmission && b.fileWrites == [] && !b.fileOpen;
  }

  /** A dead connection takes nothing, but the buffer drains and the count stays. */
  method DeadConnection(line: seq<Byte>)
    requires |line| > 0 && line[|line| - 1] == LF
  {
    var b := new TransparentTransmissionBuffer(true, 1000);
    var ok := b.InitializeConnection();
    b.Append(line);
    var before := b.GetSize();
    var processed := b.Flush(true, false);
    var after := b.GetSize();
    assert processed && b.buffer == [] && b.enqueued == [] && before == after == |line|;
  }
}
