/**
 * The DATA-phase transmission buffer of the SMTP server.
 *
 * Bytes arrive in arbitrary chunks (Append).  When receiving, the buffer
 * watches for the end-of-mail-data indicator (section 4.1.1.4 of RFC 2821) and
 * trims it.  Flush carves a ready segment off the front of the buffer, ending
 * at the last line feed within the last maxLineLength bytes (the text-line
 * limit of section 4.5.3.1 of RFC 2821), applies the transparency transform of
 * the direction and hands the result to the sink: the connection when sending,
 * the message file when receiving.
 */
module TransmissionBuffer {
  import opened Wrappers
  import opened Transparency

  /** Above this many buffered bytes the caller is asked to flush. */
  const FlushThreshold := 40000

  const TooLongLineMessage := "Too long line was received. Transmission aborted."

  /** CR LF . CR LF: the end-of-mail-data indicator after a preceding line. */
  const EndOfData: seq<Byte> := [CR, LF, Dot, CR, LF]

  /**
   * The end-of-data test the receiving side runs after every append: the first
   * three bytes are ". CR LF", or the last five are "CR LF . CR LF".
   */
  predicate EndOfDataSeen(s: seq<Byte>)
  {
    |s| >= 3 && ((s[0] == Dot && s[1] == CR && s[2] == LF) || (|s| >= 5 && s[|s| - 5..] == EndOfData))
  }

  /**
   * Whether the file sink is over its quota: the quota is in kilobytes, a
   * non-positive quota means no limit, and what is measured is every byte
   * appended since Initialize.  Writes stop only once a whole kilobyte more than
   * the quota has been appended.
   */
  predicate QuotaExceeded(dataSent: nat, maxSizeKB: int)
  {
    maxSizeKB > 0 && dataSent >= 1024 * (maxSizeKB + 1)
  }

  /** The test the file sink runs, in whole kilobytes, is the quota above. */
  lemma QuotaThreshold(dataSent: nat, maxSizeKB: int)
    ensures (maxSizeKB > 0 && dataSent / 1024 > maxSizeKB) <==> QuotaExceeded(dataSent, maxSizeKB)
  {
    if maxSizeKB > 0 {
      if dataSent >= 1024 * (maxSizeKB + 1) {
        DivMonotone(1024 * (maxSizeKB + 1), dataSent);
        assert (1024 * (maxSizeKB + 1)) / 1024 == maxSizeKB + 1;
      } else {
        DivMonotone(dataSent, 1024 * (maxSizeKB + 1) - 1);
        assert (1024 * (maxSizeKB + 1) - 1) / 1024 == maxSizeKB;
      }
    }
  }

  lemma DivMonotone(a: nat, b: nat)
    requires a <= b
    ensures a / 1024 <= b / 1024
  {
  }

  /** No line feed among s[lo..hi]. */
  predicate NoLineFeed(s: seq<Byte>, lo: int, hi: int)
    requires 0 <= lo && hi <= |s|
  {
    forall k :: lo <= k < hi ==> s[k] != LF
  }

  /**
   * The rightmost line feed in s[lo..hi], scanning backwards from hi - 1 down
   * to lo.
   */
  function LastLineFeed(s: seq<Byte>, lo: nat, hi: nat): (r: Option<nat>)
    requires lo <= hi <= |s|
    ensures r.Some? ==> lo <= r.value < hi && s[r.value] == LF
    ensures r.Some? ==> NoLineFeed(s, r.value + 1, hi)
    ensures r.None? ==> NoLineFeed(s, lo, hi)
    decreases hi - lo
  {
    if hi == lo then None
    else if s[hi - 1] == LF then Some(hi - 1)
    else LastLineFeed(s, lo, hi - 1)
  }

  /**
   * The length of the ready segment a flush of buffer s carves off, or None
   * when it carves nothing.  A forced flush takes the whole buffer; otherwise
   * the segment ends at the last line feed among the last maxLineLength bytes.
   */
  function SegmentLength(s: seq<Byte>, force: bool, maxLineLength: nat): (r: Option<nat>)
    requires maxLineLength > 0
    ensures r.Some? ==> 0 < r.value <= |s|
    ensures r.Some? && force ==> r.value == |s|
    ensures r.Some? && !force ==>
      && s[r.value - 1] == LF
      && |s| - maxLineLength <= r.value - 1
      && NoLineFeed(s, r.value, |s|)
    ensures r.None? <==>
      |s| == 0 || (!force && NoLineFeed(s, if |s| - maxLineLength > 0 then |s| - maxLineLength else 0, |s|))
  {
    if |s| == 0 then None
    else if force then Some(|s|)
    else
      var searchEndPos := if |s| - maxLineLength > 0 then |s| - maxLineLength else 0;
      match LastLineFeed(s, searchEndPos, |s|)
      case Some(i) => Some(i + 1)
      case None => None
  }

  /** The flush loop stops at index i exactly when the ready segment has length i + 1. */
  lemma SegmentLengthFound(s: seq<Byte>, force: bool, maxLineLength: nat, i: nat)
    requires maxLineLength > 0 && i < |s| && |s| - maxLineLength <= i
    requires force ==> i == |s| - 1
    requires s[i] == LF || force
    requires NoLineFeed(s, i + 1, |s|)
    ensures SegmentLength(s, force, maxLineLength) == Some(i + 1)
  {
  }

  /** The flush loop runs out of window exactly when no segment is carved. */
  lemma SegmentLengthNotFound(s: seq<Byte>, force: bool, maxLineLength: nat)
    requires maxLineLength > 0
    requires |s| > 0 ==> !force
    requires NoLineFeed(s, if |s| - maxLineLength > 0 then |s| - maxLineLength else 0, |s|)
    ensures SegmentLength(s, force, maxLineLength) == None
  {
  }

  class TransparentTransmissionBuffer {
    /** Sending (stuff dots, write to the connection) or receiving (unstuff, write to the file). */
    const isSending: bool
    /** The longest run of bytes accepted without a line feed (MAX_LINE_LENGTH). */
    const maxLineLength: nat

    var buffer: seq<Byte>
    var transmissionEnded: bool
    var lastSendEndedWithNewline: bool
    /** Bytes appended since Initialize; GetSize reports it and the file quota is checked against it. */
    var dataSent: nat
    var maxSizeKB: int
    var cancelTransmission: bool
    var cancelMessage: string

    /** Whether the message file is open. */
    var fileOpen: bool
    /** Whether a connection handle was given to Initialize. */
    var connectionSet: bool

    /** Every byte kept by Append, minus the three bytes each firing of the end-of-data test trims, in arrival order. */
    ghost var stream: seq<Byte>
    /** The ready segments Flush has carved off, before their transform, one after another. */
    ghost var flushed: seq<Byte>
    /** What was enqueued on the connection, one entry per write. */
    ghost var enqueued: seq<seq<Byte>>
    /** What was handed to the file for writing, one entry per write. */
    ghost var fileWrites: seq<seq<Byte>>

    /** No byte is lost or duplicated: what was carved off, then what is buffered, is the stream. */
    ghost predicate Valid()
      reads this`flushed, this`buffer, this`stream
    {
      maxLineLength > 0 && flushed + buffer == stream
    }

    constructor (sending: bool, maxLineLength: nat)
      requires maxLineLength > 0
      ensures Valid()
      ensures isSending == sending && this.maxLineLength == maxLineLength
      ensures buffer == [] && !transmissionEnded && !lastSendEndedWithNewline && !cancelTransmission
      ensures dataSent == 0 && maxSizeKB == 0 && !fileOpen && !connectionSet
      ensures stream == [] && flushed == [] && enqueued == [] && fileWrites == []
    {
      isSending := sending;
      this.maxLineLength := maxLineLength;
      buffer := [];
      transmissionEnded := false;
      lastSendEndedWithNewline := false;
      dataSent := 0;
      maxSizeKB := 0;
      cancelTransmission := false;
      cancelMessage := "";
      fileOpen := false;
      connectionSet := false;
      stream := [];
      flushed := [];
      enqueued := [];
      fileWrites := [];
    }

    /** Takes a (possibly already expired) connection handle as the sink and resets the byte count. */
    method InitializeConnection() returns (ok: bool)
      modifies this`connectionSet, this`dataSent
      ensures ok && connectionSet && dataSent == 0
    {
      connectionSet := true;
      dataSent := 0;
      ok := true;
    }

    /**
     * Opens the message file for appending; openSucceeds is the file system's
     * answer.  On failure nothing changes and false is returned.
     */
    method InitializeFile(openSucceeds: bool) returns (ok: bool)
      modifies this`fileOpen, this`dataSent
      ensures ok == openSucceeds
      ensures ok ==> fileOpen && dataSent == 0
      ensures !ok ==> fileOpen == old(fileOpen) && dataSent == old(dataSent)
    {
      if !openSucceeds {
        return false;
      }
      fileOpen := true;
      dataSent := 0;
      return true;
    }

    method SetMaxSizeKB(maxSize: int)
      modifies this`maxSizeKB
      ensures maxSizeKB == maxSize
    {
      maxSizeKB := maxSize;
    }

    /**
     * Appends a chunk.  An empty chunk changes nothing.  When receiving and the
     * end-of-data test holds afterwards, the last three bytes are trimmed and
     * the transmission is marked ended.
     */
    method Append(data: seq<Byte>)
      requires Valid()
      modifies this`buffer, this`dataSent, this`transmissionEnded, this`stream
      ensures Valid()
      ensures |data| == 0 ==>
        buffer == old(buffer) && dataSent == old(dataSent) && transmissionEnded == old(transmissionEnded)
      ensures |data| > 0 ==> dataSent == old(dataSent) + |data|
      ensures |data| > 0 ==>
        var joined := old(buffer) + data;
        if !isSending && EndOfDataSeen(joined) then
          buffer == joined[..|joined| - 3] && transmissionEnded
        else
          buffer == joined && transmissionEnded == old(transmissionEnded)
      ensures old(transmissionEnded) ==> transmissionEnded
    {
      if |data| == 0 {
        return;
      }
      dataSent := dataSent + |data|;
      buffer := buffer + data;
      stream := stream + data;
      assert flushed + buffer == stream;
      if |buffer| >= 3 && !isSending {
        var size := |buffer|;
        var dotCRLFOnEmptyLine := buffer[0] == Dot && buffer[1] == CR && buffer[2] == LF;
        var lineBeginningWithDotCRLF := size >= 5 &&
          buffer[size - 5] == CR && buffer[size - 4] == LF && buffer[size - 3] == Dot &&
          buffer[size - 2] == CR && buffer[size - 1] == LF;
        assert lineBeginningWithDotCRLF <==> size >= 5 && buffer[size - 5..] == EndOfData;
        if dotCRLFOnEmptyLine || lineBeginningWithDotCRLF {
          assert stream[..|stream| - 3] == flushed + buffer[..size - 3];
          buffer := buffer[..size - 3];
          stream := stream[..|stream| - 3];
          transmissionEnded := true;
        }
      }
    }

    /** Whether the caller should flush: the buffer is past the threshold or the transmission has ended. */
    method GetRequiresFlush() returns (r: bool)
      ensures r <==> |buffer| > FlushThreshold || transmissionEnded
    {
      r := |buffer| > FlushThreshold || transmissionEnded;
    }

    /** The number of bytes appended since Initialize. */
    method GetSize() returns (n: int)
      ensures n == dataSent
    {
      n := dataSent;
    }

    /**
     * Carves a ready segment off the buffer and delivers it.  Without force,
     * nothing happens unless a flush is required.  A buffer longer than
     * maxLineLength cancels the transmission and forces the flush.
     * connectionAlive says whether the connection handle still resolves.
     */
    method Flush(force: bool, connectionAlive: bool) returns (dataProcessed: bool)
      requires Valid()
      modifies this`buffer, this`lastSendEndedWithNewline, this`cancelTransmission, this`cancelMessage
      modifies this`fileOpen, this`flushed, this`enqueued, this`fileWrites
      ensures Valid()
      ensures old(cancelTransmission) ==> cancelTransmission
      ensures !force && !(|old(buffer)| > FlushThreshold || transmissionEnded) ==>
        && !dataProcessed
        && buffer == old(buffer) && flushed == old(flushed)
        && lastSendEndedWithNewline == old(lastSendEndedWithNewline)
        && cancelTransmission == old(cancelTransmission) && cancelMessage == old(cancelMessage)
        && fileOpen == old(fileOpen) && enqueued == old(enqueued) && fileWrites == old(fileWrites)
      ensures force || |old(buffer)| > FlushThreshold || transmissionEnded ==>
        var tooLong := |old(buffer)| > maxLineLength;
        && cancelTransmission == (old(cancelTransmission) || tooLong)
        && (tooLong ==> cancelMessage == TooLongLineMessage)
        && (!tooLong ==> cancelMessage == old(cancelMessage))
        && fileOpen == (old(fileOpen) && !transmissionEnded)
        && match SegmentLength(old(buffer), force || tooLong, maxLineLength)
           case None =>
             && !dataProcessed
             && buffer == old(buffer) && flushed == old(flushed)
             && lastSendEndedWithNewline == old(lastSendEndedWithNewline)
             && enqueued == old(enqueued) && fileWrites == old(fileWrites)
           case Some(n) =>
             var segment := old(buffer)[..n];
             && dataProcessed
             && old(buffer) == segment + buffer
             && flushed == old(flushed) + segment
             && lastSendEndedWithNewline == (segment[n - 1] == LF)
             && enqueued == old(enqueued) +
                  (if isSending && connectionSet && connectionAlive then [Stuffed(segment)] else [])
             && fileWrites == old(fileWrites) +
                  (if !isSending && !QuotaExceeded(dataSent, maxSizeKB) && !cancelTransmission
                   then [Unstuffed(segment)] else [])
    {
      dataProcessed := false;
      var requiresFlush := GetRequiresFlush();
      if !requiresFlush && !force {
        return;
      }

      var forced := force;
      if |buffer| > maxLineLength {
        cancelTransmission := true;
        cancelMessage := TooLongLineMessage;
        forced := true;
      }

      var size := |buffer|;
      var searchEndPos := if size - maxLineLength > 0 then size - maxLineLength else 0;
      var i := size - 1;
      ghost var cut: Option<nat> := None;
      while i >= searchEndPos
        invariant searchEndPos - 1 <= i < size
        invariant forced ==> i == size - 1
        invariant NoLineFeed(buffer, i + 1, size)
        invariant buffer == old(buffer) && flushed == old(flushed) && !dataProcessed && cut == None
        invariant lastSendEndedWithNewline == old(lastSendEndedWithNewline)
        invariant enqueued == old(enqueued) && fileWrites == old(fileWrites)
        decreases i
      {
        var c := buffer[i];
        if c == LF || forced {
          SegmentLengthFound(buffer, forced, maxLineLength, i);
          lastSendEndedWithNewline := c == LF;
          Deliver(i + 1, connectionAlive);
          cut := Some(i + 1);
          dataProcessed := true;
          break;
        }
        i := i - 1;
      }

      if !dataProcessed {
        SegmentLengthNotFound(buffer, forced, maxLineLength);
      }
      assert cut == SegmentLength(old(buffer), forced, maxLineLength);
      if transmissionEnded && fileOpen {
        fileOpen := false;
      }
    }

    /**
     * The body of the flush loop once the split point is found: moves the first
     * copySize bytes out of the buffer, transforms them for the direction and
     * hands them to the direction's sink.
     */
    method Deliver(copySize: nat, connectionAlive: bool)
      requires Valid() && 0 < copySize <= |buffer|
      modifies this`buffer, this`flushed, this`enqueued, this`fileWrites
      ensures Valid()
      ensures old(buffer) == old(buffer)[..copySize] + buffer
      ensures flushed == old(flushed) + old(buffer)[..copySize]
      ensures enqueued == old(enqueued) +
        (if isSending && connectionSet && connectionAlive then [Stuffed(old(buffer)[..copySize])] else [])
      ensures fileWrites == old(fileWrites) +
        (if !isSending && !QuotaExceeded(dataSent, maxSizeKB) && !cancelTransmission
         then [Unstuffed(old(buffer)[..copySize])] else [])
    {
      var segment := buffer[..copySize];
      buffer := buffer[copySize..];
      assert segment + buffer == old(buffer);
      flushed := flushed + segment;

      if isSending {
        var outBuffer := InsertTransmissionPeriod(segment);
        if connectionSet && connectionAlive {
          enqueued := enqueued + [outBuffer];
        }
      } else {
        var outBuffer := RemoveTransmissionPeriod(segment);
        var saved := SaveToFile(outBuffer);
      }
    }

    /**
     * Hands a transformed segment to the file unless the quota is exceeded or
     * the transmission was cancelled.  Returns false only when over quota.
     */
    method SaveToFile(segment: seq<Byte>) returns (saved: bool)
      modifies this`fileWrites
      ensures saved == !QuotaExceeded(dataSent, maxSizeKB)
      ensures fileWrites == old(fileWrites) + (if saved && !cancelTransmission then [segment] else [])
    {
      QuotaThreshold(dataSent, maxSizeKB);
      if maxSizeKB > 0 && dataSent / 1024 > maxSizeKB {
        return false;
      }
      if !cancelTransmission {
        fileWrites := fileWrites + [segment];
      }
      return true;
    }
  }
}
