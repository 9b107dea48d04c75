/** What `compass_handler` puts on the display for one compass sample: the
    dispatch on the calibration status and the strings each branch formats
    into the handler's static buffers. */
module CompassHandler {
  import opened CFormat
  import opened Readout

  /** `data.compass_status`. `Other` stands for every code the switch does not
      name and carries the integer that the diagnostic prints. */
  datatype CompassStatus = DataInvalid | Calibrating | Calibrated | Other(code: int)
  {
    /** The statuses whose case body formats a heading. */
    predicate HasHeading() { Calibrating? || Calibrated? }
  }

  /** Size of `s_buffer`, which holds the unknown-status diagnostic. */
  const StatusBufferSize: nat := 32
  /** Size of `s_heading_buf`, which holds the heading readout. */
  const HeadingBufferSize: nat := 64

  const InitialText: string := "Calibrating..."
  const InvalidText: string := "Compass data invalid"
  const UnknownPrefix: string := "Unknown CompassStatus: "
  /** The degree sign as the source file spells it: the two UTF-8 bytes of U+00B0. */
  const DegreeSign: string := "\U{C2}\U{B0}"

  /** The full text of the format `" %ld°\n%ld.%02ldpi"` for a heading. */
  function HeadingMessage(deg: nat): string
  {
    " " + NatToDec(deg) + DegreeSign + "\n" + NatToDec(Units(deg)) + "." + ZeroPad2(Hundredths(deg)) + "pi"
  }

  /** What `s_heading_buf` holds after the heading branch's `snprintf`. */
  function HeadingText(deg: nat): string
  {
    Clip(HeadingMessage(deg), HeadingBufferSize)
  }

  /** The full text of the format `"Unknown CompassStatus: %d"`. */
  function UnknownMessage(code: int): string
  {
    UnknownPrefix + IntToDec(code)
  }

  /** What `s_buffer` holds after the default branch's `snprintf`. */
  function UnknownText(code: int): string
  {
    Clip(UnknownMessage(code), StatusBufferSize)
  }

  /** The text the output layer shows after a sample with status `status`
      and heading `deg` (in degrees). */
  function DisplayText(status: CompassStatus, deg: nat): (r: string)
    ensures |r| <= HeadingBufferSize - 1
    ensures status.Other? ==> |r| <= StatusBufferSize - 1
    ensures NoNul(r)
  {
    match status
    case DataInvalid => InvalidText
    case Calibrating | Calibrated => HeadingMessageNoNul(deg); HeadingText(deg)
    case Other(code) => UnknownMessageNoNul(code); UnknownText(code)
  }

  // ---------------------------------------------------------------------
  // Reading a display text back

  /** The three numbers a heading readout prints. */
  datatype HeadingFields = HeadingFields(degrees: nat, units: nat, hundredths: nat)

  /** Reads a heading readout: a space, decimal degrees, the degree sign and a
      newline, the decimal units field, a point, exactly two digits and "pi". */
  function ParseHeading(t: string): Option<HeadingFields>
  {
    if |t| == 0 || t[0] != ' ' then None
    else
      var a := t[1..];
      var k := DigitSpan(a);
      var b := a[k..];
      if k == 0 || !(DegreeSign + "\n" <= b) then None
      else
        var c := b[3..];
        var m := DigitSpan(c);
        var e := c[m..];
        if m == 0 || |e| != 5 || e[0] != '.' || !IsDigit(e[1]) || !IsDigit(e[2]) || e[3..] != "pi" then None
        else Some(HeadingFields(DecValue(a[..k]), DecValue(c[..m]), DecValue(e[1..3])))
  }

  /** Reads an unknown-status diagnostic back to its code. */
  function ParseUnknown(t: string): Option<int>
  {
    if UnknownPrefix <= t then ParseInt(t[|UnknownPrefix|..]) else None
  }

  /** Which case of the switch a display text comes from. */
  datatype Branch = InvalidBranch | HeadingBranch | UnknownBranch

  function BranchOf(status: CompassStatus): Branch
  {
    match status
    case DataInvalid => InvalidBranch
    case Calibrating | Calibrated => HeadingBranch
    case Other(_) => UnknownBranch
  }

  /** Tells the three kinds of display text apart by their first bytes. */
  function ClassifyText(t: string): Option<Branch>
  {
    if t == InvalidText then Some(InvalidBranch)
    else if |t| > 0 && t[0] == ' ' then Some(HeadingBranch)
    else if UnknownPrefix <= t then Some(UnknownBranch)
    else None
  }

  // ---------------------------------------------------------------------
  // Properties of the handler's output

  /** An invalid sample shows the fixed notice, whatever its heading. */
  lemma InvalidIgnoresHeading(deg: nat)
    ensures DisplayText(DataInvalid, deg) == "Compass data invalid"
  {
  }

  /** Calibrating and calibrated samples share one case body. */
  lemma CalibratingShowsAsCalibrated(deg: nat)
    ensures DisplayText(Calibrating, deg) == DisplayText(Calibrated, deg) == HeadingText(deg)
  {
  }

  /** For a heading within one turn the readout is 11 to 13 bytes long, so the
      64-byte heading buffer never truncates it. */
  lemma {:induction false} HeadingFitsBuffer(deg: nat)
    requires deg < 360
    ensures 11 <= |HeadingMessage(deg)| <= 13
    ensures HeadingText(deg) == HeadingMessage(deg)
  {
    NatToDecDigits(deg);
    NatToDecLength(deg, 3);
    assert Pow10(3) == 1000;
    assert NatToDec(Units(deg)) == [DigitChar(Units(deg))];
    ZeroPad2TwoDigits(Hundredths(deg));
  }

  /** The heading buffer always holds at most 63 bytes, a prefix of the full
      readout. */
  lemma HeadingTextBounded(deg: nat)
    ensures |HeadingText(deg)| <= HeadingBufferSize - 1
    ensures HeadingText(deg) <= HeadingMessage(deg)
  {
  }

  /** A heading within one turn is displayed so that its degrees, units and
      hundredths can be read back off the screen. */
  lemma {:induction false} HeadingRoundTrip(deg: nat)
    requires deg < 360
    ensures ParseHeading(DisplayText(Calibrated, deg)) == Some(HeadingFields(deg, Units(deg), Hundredths(deg)))
  {
    HeadingFitsBuffer(deg);
    var d := NatToDec(deg);
    var u := NatToDec(Units(deg));
    var p := ZeroPad2(Hundredths(deg));
    NatToDecRoundTrip(deg);
    NatToDecRoundTrip(Units(deg));
    ZeroPad2TwoDigits(Hundredths(deg));
    var t := HeadingMessage(deg);
    assert t == " " + (d + (DegreeSign + "\n" + (u + ("." + p + "pi"))));
    var a := t[1..];
    assert a == d + (DegreeSign + "\n" + (u + ("." + p + "pi")));
    DigitSpanOf(d, DegreeSign + "\n" + (u + ("." + p + "pi")));
    assert a[..|d|] == d;
    var b := a[|d|..];
    assert b == DegreeSign + "\n" + (u + ("." + p + "pi"));
    var c := b[3..];
    assert c == u + ("." + p + "pi");
    DigitSpanOf(u, "." + p + "pi");
    assert c[..|u|] == u;
    var e := c[|u|..];
    assert e == "." + p + "pi";
    assert e[1..3] == p;
  }

  /** For codes of at most eight printed characters the diagnostic reads back
      to the code. */
  lemma UnknownRoundTrip(code: int, deg: nat)
    requires -9999999 <= code <= 99999999
    ensures ParseUnknown(DisplayText(Other(code), deg)) == Some(code)
  {
    UnknownNotClipped(code);
    IntToDecRoundTrip(code);
    assert UnknownMessage(code)[|UnknownPrefix|..] == IntToDec(code);
  }

  /** The status buffer holds at most 31 bytes: the diagnostic is cut short
      exactly when the code needs more than eight characters. */
  lemma UnknownNotClipped(code: int)
    ensures |UnknownText(code)| <= StatusBufferSize - 1
    ensures UnknownText(code) <= UnknownMessage(code)
    ensures UnknownText(code) == UnknownMessage(code) <==> -9999999 <= code <= 99999999
    ensures !(-9999999 <= code <= 99999999) ==> |UnknownText(code)| == StatusBufferSize - 1
  {
    assert Pow10(7) == 10000000;
    assert Pow10(8) == 100000000;
    if code < 0 {
      NatToDecLength(-code, 7);
    } else {
      NatToDecLength(code, 8);
    }
  }

  /** The heading readout is a valid C string: it has no embedded NUL. */
  lemma HeadingMessageNoNul(deg: nat)
    ensures NoNul(HeadingMessage(deg))
  {
    NatToDecNoNul(deg);
    NatToDecNoNul(Units(deg));
    ZeroPad2TwoDigits(Hundredths(deg));
  }

  /** The unknown-status diagnostic is a valid C string. */
  lemma UnknownMessageNoNul(code: int)
    ensures NoNul(UnknownMessage(code))
  {
    NatToDecNoNul(if code < 0 then -code else code);
  }

  /** The text shown tells which case of the switch handled the sample. */
  lemma ClassifyDisplayText(status: CompassStatus, deg: nat)
    ensures ClassifyText(DisplayText(status, deg)) == Some(BranchOf(status))
  {
    match status
    case DataInvalid =>
    case Calibrating | Calibrated =>
      var t := DisplayText(status, deg);
      assert t[0] == ' ';
      assert t != InvalidText;
    case Other(code) =>
      var t := DisplayText(status, deg);
      assert t[..|UnknownPrefix|] == UnknownPrefix;
      assert t != InvalidText by { assert t[0] == 'U'; }
  }

  /** 185 degrees shows " 185°" on the
      first line and "1.02pi" on the second. */
  lemma Heading185()
    ensures DisplayText(Calibrated, 185) == " 185" + DegreeSign + "\n1.02pi"
  {
  }
}
