# HumanCompass compass handler, modelled in Dafny

HumanCompass is a Pebble watch app. It subscribes to the compass service and
shows each compass sample on one full-screen text layer. This project models
that sample handler, `compass_handler` in `src/main.c`, together with the text
the layer starts with.

- **Dispatch.** The handler switches on the calibration status of the sample:
  - `CompassStatusDataInvalid` shows the fixed notice `Compass data invalid`.
  - `CompassStatusCalibrating` and `CompassStatusCalibrated` share one case
    body. It formats the heading into the 64-byte static buffer
    `s_heading_buf` with `" %ld°\n%ld.%02ldpi"`.
  - Any other status formats `Unknown CompassStatus: %d` into the 32-byte
    static buffer `s_buffer`.
- **Readout.** The heading `deg` (whole degrees) is printed twice: first
  as-is, then as a count of half turns ("multiples of pi") with two decimals.
  The units field is `(deg * 2) / 360` and the hundredths field is
  `((deg * 200) / 360) % 100`.
- **Display.** The text layer shows the C string held by the buffer it was
  given. That text is `Calibrating...` until the first sample arrives.

Modules, leaves first:

- `CFormat` (`cformat.dfy`) covers the parts of `snprintf` the handler uses:
  - `%ld`/`%d` decimal rendering (`NatToDec`, `IntToDec`);
  - `%02ld` zero padding (`ZeroPad2`);
  - truncation to the buffer size (`Clip`);
  - reading a NUL-terminated string out of a buffer (`CStr`).

  Each rendering has a reader as its partner (`DecValue`, `ParseInt`), and
  lemmas prove the round trips.
- `Readout` (`readout.dfy`) holds the units and hundredths fields. Their
  contracts say what the fields mean: the integer part of deg / 180, and
  deg / 180 truncated to two decimals.
- `CompassHandler` (`compass_handler.dfy`) holds three things:
  - the status datatype;
  - the text each branch produces (`DisplayText`);
  - readers for the heading readout and the diagnostic (`ParseHeading`,
    `ParseUnknown`, `ClassifyText`). Lemmas prove these readers recover what
    was printed.
- `CompassWindow` (`compass_window.dfy`) is the imperative part. `Snprintf`
  writes bytes into a buffer in place. The class `OutputWindow` owns the two
  static buffers and the layer's text, and its `Handle` method is the
  handler.

Text is a sequence of bytes, one Dafny `char` per C `char`. The degree sign is
the two UTF-8 bytes `C2 B0`, as the source file spells it.

Facts about the text `src/main.c` produces:

- The readout begins with a space: `" 185°\n1.02pi"`.
- The diagnostic reads `Unknown CompassStatus: N`.
- Buffer sizes count bytes.

## Model

| member | source | states |
|---|---|---|
| `CFormat.NatToDecRoundTrip` | src/main.c:28-29 | `%ld` of a non-negative value prints only digits, and reading them back gives the value |
| `CFormat.NatToDecLength` | src/main.c:28-29 | `%ld` of n prints at most k digits exactly when n < 10^k |
| `CFormat.IntToDecRoundTrip` | src/main.c:41 | `%d` of any int, negative ones included, reads back to that int |
| `CFormat.ZeroPad2TwoDigits` | src/main.c:29-33 | `%02ld` of a value below 100 is exactly two digits, tens then ones, and reads back to the value |
| `CFormat.Clip` | src/main.c:41 | `snprintf` into a buffer of size n keeps a prefix of the text: the whole text exactly when it is shorter than n, otherwise exactly its first n - 1 bytes |
| `CFormat.CStr` | src/main.c:35 | the C string of a buffer is a NUL-free prefix of it that stops at the first NUL (or at the buffer's end) |
| `CFormat.CStrOfTerminated` | src/main.c:35 | a buffer holding text then NUL shows exactly that text, whatever bytes follow the terminator |
| `Readout.Units` | src/main.c:31 | the units field u satisfies u*180 <= deg < (u+1)*180, so it is the integer part of deg/180; within one turn it is 0 exactly below 180 degrees and 1 from 180 on |
| `Readout.Hundredths` | src/main.c:33 | the hundredths field h is in [0,99]; units*100 + h equals (deg*200)/360; (units*100 + h)/100 is deg/180 truncated to two decimals |
| `Readout.ScaledQuotient` | src/main.c:31-33 | (deg*200)/360 divided by 100 is the units field, and (deg*200)/360 is the floor of deg*100/180 |
| `Readout.UnitsIsOneDigit` | src/main.c:31 | for deg in [0,360) the units field is 0 or 1 |
| `Readout.ReadoutMonotonic` | src/main.c:31-33 | a larger heading never shows a smaller readout |
| `Readout.Readout185` | src/main.c:29-33 | 185 degrees gives units 1 and hundredths 2 |
| `CompassHandler.DisplayText` | src/main.c:18-44 | whatever the status and heading, the text shown is at most 63 bytes, at most 31 for an unknown status, and holds no NUL byte, so it is a whole C string |
| `CompassHandler.InvalidIgnoresHeading` | src/main.c:20-22 | an invalid sample shows exactly `Compass data invalid`, whatever the heading |
| `CompassHandler.CalibratingShowsAsCalibrated` | src/main.c:25-35 | calibrating and calibrated samples with the same heading show the same text, the heading readout |
| `CompassHandler.HeadingFitsBuffer` | src/main.c:16-29 | for deg in [0,360) the readout is 11 to 13 bytes long, so the 64-byte buffer holds it untruncated |
| `CompassHandler.HeadingTextBounded` | src/main.c:16-29 | for any heading, the heading buffer holds a prefix of the readout of at most 63 bytes |
| `CompassHandler.HeadingRoundTrip` | src/main.c:28-35 | for deg in [0,360) the shown text is a space, deg, the degree sign, a newline, the units field, a point, the two-digit hundredths and `pi`; reading it back recovers all three numbers |
| `CompassHandler.UnknownNotClipped` | src/main.c:40-42 | the diagnostic in the 32-byte buffer is a prefix of `Unknown CompassStatus: <code>` of at most 31 bytes; it is complete exactly when -9999999 <= code <= 99999999, and otherwise exactly its first 31 bytes |
| `CompassHandler.UnknownRoundTrip` | src/main.c:40-42 | for codes that fit, the diagnostic reads back to the status code, whatever the heading |
| `CompassHandler.HeadingMessageNoNul` | src/main.c:28-29 | the heading readout contains no NUL byte, so the layer shows all of it |
| `CompassHandler.UnknownMessageNoNul` | src/main.c:41 | the diagnostic contains no NUL byte |
| `CompassHandler.ClassifyDisplayText` | src/main.c:18-44 | the text shown tells which case of the switch handled the sample (invalid, heading or unknown) |
| `CompassHandler.Heading185` | src/main.c:28-35 | a calibrated sample at 185 degrees shows `" 185°\n1.02pi"` |
| `CompassWindow.Snprintf` | src/main.c:28-29 | writes the first min(len, size-1) bytes of the text into the buffer in place, then NUL, and leaves the rest untouched; returns the untruncated length; the buffer then holds the clipped text as a C string |
| `CompassWindow.OutputWindow.constructor` | src/main.c:53 | before any sample the layer shows `Calibrating...` |
| `CompassWindow.OutputWindow.Handle` | src/main.c:12-45 | the whole text is replaced by the text for this sample; in the heading and unknown branches it is the C string in that branch's buffer; each branch writes only its own buffer (the invalid branch writes neither) |
| `CompassWindow.HandleIsMemoryless` | src/main.c:12-45 | two windows in any prior states show the same text after handling the same sample |

## Left out

- Window and text-layer creation, alignment, layout and destruction (`main_window_load` apart from its initial text, `main_window_unload`, `init`, `deinit`) are left out. They are calls into the Pebble UI library.
- `main`, `app_event_loop`, `compass_service_subscribe` and the heading filter `TRIG_MAX_ANGLE / 36` are left out. They configure the host event loop and the SDK.
- `TRIGANGLE_TO_DEG` and the type of `CompassHeading` come from `pebble.h`, which is not part of this model. The heading arrives already in whole degrees, as a `nat`. The range lemmas take it to be in [0,360).
- The numeric values of the `CompassStatus` enumerators come from `pebble.h` too. `Other(code)` stands for every code that the switch does not name.
- `Readout.Hundredths`: does not model C `long` overflow of `deg * 200` (nor `Readout.Units` that of `deg * 2`) for headings far beyond one turn. The model assumes the degree conversion lands in [0,360), where no overflow can happen.
- `CompassWindow.Snprintf`: models only format-then-truncate. The caller formats the text first, then the method copies it into the buffer. A cut that splits the two-byte degree sign is kept byte for byte; only headings far beyond one turn are long enough for that.
- The text layer keeps a pointer to the buffer. The model copies the C string out of the buffer at the moment the text is set. That is the same thing here, because the handler rewrites a buffer only just before it sets the text again.
- `src/main.c` has no bearing store, alert test, message decoding or haptic output, so the model has none either.
