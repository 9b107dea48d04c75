/** The state the compass handler changes: its two static output buffers and
    the text of the single output layer, which shows the C string a buffer
    holds. */
module CompassWindow {
  import opened CFormat
  import opened CompassHandler

  /** `snprintf(buf, buf.Length, ...)` once its arguments are formatted into
      `s`: writes the first `buf.Length - 1` bytes at most, then a NUL, leaves
      the rest of the buffer alone, and returns the untruncated length. */
  method Snprintf(buf: array<char>, s: string) returns (n: nat)
    requires buf.Length > 0 && NoNul(s)
    modifies buf
    ensures n == |s|
    ensures buf[..] == Clip(s, buf.Length) + [NUL] + old(buf[|Clip(s, buf.Length)| + 1..])
    ensures CStr(buf[..]) == Clip(s, buf.Length)
  {
    ghost var before := buf[..];
    var k := if |s| < buf.Length then |s| else buf.Length - 1;
    var i := 0;
    while i < k
      invariant 0 <= i <= k
      invariant forall j | 0 <= j < i :: buf[j] == s[j]
      invariant forall j | i <= j < buf.Length :: buf[j] == before[j]
    {
      buf[i] := s[i];
      i := i + 1;
    }
    buf[k] := NUL;
    ghost var clip := Clip(s, buf.Length);
    assert |clip| == k;
    assert buf[..] == clip + [NUL] + before[k + 1..];
    CStrOfTerminated(clip, before[k + 1..]);
    n := |s|;
  }

  /** The application window: the output layer's text and the handler's
      static buffers `s_buffer` and `s_heading_buf`. */
  class OutputWindow {
    /** The text `s_output_layer` shows. */
    var text: string
    /** `s_buffer`, for the unknown-status diagnostic. */
    const statusBuf: array<char>
    /** `s_heading_buf`, for the heading readout. */
    const headingBuf: array<char>

    ghost predicate Valid()
      reads this
    {
      statusBuf.Length == StatusBufferSize && headingBuf.Length == HeadingBufferSize &&
      statusBuf != headingBuf
    }

    /** The window as `main_window_load` leaves it, before any sample. */
    constructor ()
      ensures Valid() && fresh(statusBuf) && fresh(headingBuf)
      ensures text == InitialText
    {
      statusBuf := new char[StatusBufferSize](_ => NUL);
      headingBuf := new char[HeadingBufferSize](_ => NUL);
      text := InitialText;
    }

    /** `compass_handler` for a sample with status `status` and heading `deg`
        in degrees: the whole text is replaced by one determined by the
        sample alone, and each branch touches only its own buffer. */
    method Handle(status: CompassStatus, deg: nat)
      requires Valid()
      modifies this, statusBuf, headingBuf
      ensures Valid()
      ensures text == DisplayText(status, deg)
      ensures status == DataInvalid ==> unchanged(statusBuf) && unchanged(headingBuf)
      ensures status.HasHeading() ==> text == CStr(headingBuf[..]) && unchanged(statusBuf)
      ensures status.Other? ==> text == CStr(statusBuf[..]) && unchanged(headingBuf)
    {
      HeadingMessageNoNul(deg);
      if status.Other? {
        UnknownMessageNoNul(status.code);
      }
      match status {
        case DataInvalid =>
          text := InvalidText;
        case Calibrating =>
          var _ := Snprintf(headingBuf, HeadingMessage(deg));
          text := CStr(headingBuf[..]);
        case Calibrated =>
          var _ := Snprintf(headingBuf, HeadingMessage(deg));
          text := CStr(headingBuf[..]);
        case Other(code) =>
          var _ := Snprintf(statusBuf, UnknownMessage(code));
          text := CStr(statusBuf[..]);
      }
    }
  }

  /** Two windows in any states show the same text after handling the same
      sample: nothing from earlier samples is carried over. */
  method HandleIsMemoryless(w1: OutputWindow, w2: OutputWindow, status: CompassStatus, deg: nat)
    requires w1.Valid() && w2.Valid()
    requires {w1, w1.statusBuf, w1.headingBuf} !! {w2, w2.statusBuf, w2.headingBuf}
    modifies w1, w1.statusBuf, w1.headingBuf, w2, w2.statusBuf, w2.headingBuf
    ensures w1.text == w2.text
  {
    w1.Handle(status, deg);
    w2.Handle(status, deg);
  }
}
