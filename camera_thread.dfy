/** Capture-result normalisation of src/threads/camera_thread.c: how a camera event (plate data,
    missing data, an error code or an unknown type) and a failed capture start become the
    {plate, valid} result published to the main thread. */
module CameraThread {
  import opened RadarTypes
  import PlateValidator

  /** result.plate is char[8]: at most 7 characters before the terminator. */
  const PLATE_CHARS: nat := 7

  const NULL_DATA_PLATE: CString := "NULL"
  const UNKNOWN_EVENT_PLATE: CString := "UNKNOWN"
  const CAPTURE_START_FAILED_PLATE: CString := "ERROR"

  /** The captured data of a camera event; its plate pointer may be NULL. */
  datatype CapturedData = CapturedData(plate: Option<CString>)

  /** A camera-service event: plate data (possibly NULL), an error code, or a type the thread does not know. */
  datatype CameraEvent =
    | DataEvent(capturedData: Option<CapturedData>)
    | ErrorEvent(errorCode: Int32)
    | OtherEvent(eventType: int)

  /** strncpy of `s` into a buffer of n + 1 bytes whose last byte is then set to the terminator. */
  function Truncate(s: CString, n: nat): (r: CString)
    ensures |r| == (if |s| <= n then |s| else n) && r <= s
  {
    if |s| <= n then s else s[..n]
  }

  /** The non-space characters of `s`, in their original order. */
  function NonSpaces(s: string): (r: string)
    ensures |r| <= |s|
    ensures ' ' !in r
    ensures forall c :: c in r ==> c in s
  {
    if s == [] then []
    else
      var init := NonSpaces(s[..|s| - 1]);
      if s[|s| - 1] == ' ' then init else init + [s[|s| - 1]]
  }

  /** What the space-removal loop leaves in clean_plate: the first 7 non-space characters. */
  function StrippedPlate(plate: CString): (clean: CString)
    ensures |clean| <= PLATE_CHARS && ' ' !in clean
  {
    var kept := NonSpaces(plate);
    assert forall c :: c in kept ==> c in plate;
    Truncate(kept, PLATE_CHARS)
  }

  /** The plate a data event publishes: the incoming string cut to 7 characters, then stripped of spaces. */
  function CleanedPlate(raw: CString): (clean: CString)
    ensures |clean| <= PLATE_CHARS && ' ' !in clean
  {
    StrippedPlate(Truncate(raw, PLATE_CHARS))
  }

  /** The space-removal loop: copy every non-space character into the 8-byte clean_plate buffer
      while fewer than 7 have been copied. */
  method StripSpaces(plate: CString) returns (clean: CString)
    ensures clean == StrippedPlate(plate)
  {
    var cleanPlate := new char[PLATE_CHARS + 1](_ => '\0');
    var cleanIdx := 0;
    var i := 0;
    while i < |plate| && cleanIdx < PLATE_CHARS
      invariant 0 <= i <= |plate|
      invariant 0 <= cleanIdx <= PLATE_CHARS
      invariant cleanPlate[..cleanIdx] == NonSpaces(plate[..i])
    {
      assert plate[..i + 1][..i] == plate[..i];
      if plate[i] != ' ' {
        cleanPlate[cleanIdx] := plate[i];
        cleanIdx := cleanIdx + 1;
      }
      i := i + 1;
    }
    cleanPlate[cleanIdx] := '\0';
    NonSpacesConcat(plate[..i], plate[i..]);
    assert plate[..i] + plate[i..] == plate;
    assert cleanPlate[..cleanIdx] == NonSpaces(plate)[..cleanIdx];
    clean := cleanPlate[..cleanIdx];
  }

  /** Removing spaces distributes over concatenation. */
  lemma {:induction false} NonSpacesConcat(a: string, b: string)
    ensures NonSpaces(a + b) == NonSpaces(a) + NonSpaces(b)
    decreases |b|
  {
    if b != [] {
      var b' := b[..|b| - 1];
      assert (a + b)[..|a + b| - 1] == a + b';
      NonSpacesConcat(a, b');
    } else {
      assert a + b == a;
    }
  }

  /** A string without spaces is left as it is. */
  lemma {:induction false} NonSpacesOfSpaceFree(s: string)
    requires ' ' !in s
    ensures NonSpaces(s) == s
    decreases |s|
  {
    if s != [] {
      var init := s[..|s| - 1];
      assert forall c :: c in init ==> c in s;
      NonSpacesOfSpaceFree(init);
      assert init + [s[|s| - 1]] == s;
    }
  }

  // ---------------------------------------------------------------- "ERR%03d"

  predicate AllDigits(s: string)
  {
    forall i | 0 <= i < |s| :: PlateValidator.IsDigit(s[i])
  }

  lemma AllDigitsHaveNoNul(s: string)
    requires AllDigits(s)
    ensures '\0' !in s
  {
  }

  function DigitChar(d: nat): (c: char)
    requires d < 10
    ensures PlateValidator.IsDigit(c)
  {
    ('0' as int + d) as char
  }

  function DigitValue(c: char): nat
    requires PlateValidator.IsDigit(c)
  {
    c as int - '0' as int
  }

  /** The decimal representation of `n`, without leading zeros. */
  function Decimal(n: nat): (r: string)
    ensures 1 <= |r| && AllDigits(r)
    decreases n
  {
    if n < 10 then [DigitChar(n)] else Decimal(n / 10) + [DigitChar(n % 10)]
  }

  /** Reading a string of digits back as a number. */
  function ParseDecimal(s: string): nat
    requires AllDigits(s)
    decreases |s|
  {
    if s == [] then 0 else ParseDecimal(s[..|s| - 1]) * 10 + DigitValue(s[|s| - 1])
  }

  function Zeros(k: nat): (r: string)
    ensures |r| == k && AllDigits(r)
  {
    seq(k, _ => '0')
  }

  /** Left-pads `s` with zeros to `width` characters. */
  function PadZeros(s: string, width: nat): (r: string)
    ensures |r| >= |s| && |r| >= width
  {
    if |s| >= width then s else Zeros(width - |s|) + s
  }

  /** The decimal representation of a positive number does not start with a zero. */
  lemma {:induction false} DecimalLeadsNonZero(n: nat)
    ensures n >= 1 ==> Decimal(n)[0] != '0'
    decreases n
  {
    if n >= 10 {
      DecimalLeadsNonZero(n / 10);
    }
  }

  /** Zero padding does not change the value a decimal string reads back as. */
  lemma PaddedDecimalParses(m: nat, width: nat)
    ensures AllDigits(PadZeros(Decimal(m), width))
    ensures ParseDecimal(PadZeros(Decimal(m), width)) == m
  {
    ParseDecimalRoundTrip(m);
    if |Decimal(m)| < width {
      LeadingZerosIgnored(width - |Decimal(m)|, Decimal(m));
    }
  }

  /** printf's "%03d": at least three characters, zero-padded after the sign of a negative number. */
  function FormatZeroPadded3(n: int): (r: string)
    ensures |r| >= 3
    ensures n >= 0 ==> AllDigits(r)
    ensures n < 0 ==> r[0] == '-' && AllDigits(r[1..])
    ensures n >= 0 ==> ParseDecimal(r) == n
    ensures n < 0 ==> ParseDecimal(r[1..]) == -n
    ensures n >= 0 && |r| > 3 ==> r[0] != '0'
    ensures n < 0 && |r| > 3 ==> r[1] != '0'
    ensures '\0' !in r
  {
    var m := if n >= 0 then n else -n;
    var width := if n >= 0 then 3 else 2;
    var d := PadZeros(Decimal(m), width);
    PaddedDecimalParses(m, width);
    DecimalLeadsNonZero(m);
    AllDigitsHaveNoNul(d);
    if n >= 0 then d
    else
      assert ("-" + d)[1..] == d;
      "-" + d
  }

  /** snprintf(plate, 8, "ERR%03d", code): the text cut to 7 characters. */
  function ErrorPlate(code: Int32): (plate: CString)
    ensures 3 <= |plate| <= PLATE_CHARS && plate[..3] == "ERR"
    ensures plate[3..] <= FormatZeroPadded3(code)
    ensures |plate| == if 3 + |FormatZeroPadded3(code)| <= PLATE_CHARS then 3 + |FormatZeroPadded3(code)| else PLATE_CHARS
  {
    var text := "ERR" + FormatZeroPadded3(code);
    assert text[..3] == "ERR";
    Truncate(text, PLATE_CHARS)
  }

  lemma {:induction false} ParseDecimalRoundTrip(n: nat)
    ensures ParseDecimal(Decimal(n)) == n
    decreases n
  {
    if n >= 10 {
      ParseDecimalRoundTrip(n / 10);
      var s := Decimal(n);
      assert s[..|s| - 1] == Decimal(n / 10);
    }
  }

  lemma {:induction false} LeadingZerosIgnored(k: nat, s: string)
    requires AllDigits(s)
    ensures AllDigits(Zeros(k) + s)
    ensures ParseDecimal(Zeros(k) + s) == ParseDecimal(s)
    decreases |s|
  {
    var z := Zeros(k) + s;
    assert forall i | 0 <= i < |z| :: z[i] == if i < k then '0' else s[i - k];
    if s == [] {
      assert z == Zeros(k);
      ZerosParseToZero(k);
    } else {
      var init := s[..|s| - 1];
      assert z[..|z| - 1] == Zeros(k) + init;
      LeadingZerosIgnored(k, init);
    }
  }

  lemma {:induction false} ZerosParseToZero(k: nat)
    ensures ParseDecimal(Zeros(k)) == 0
  {
    if k > 0 {
      assert Zeros(k)[..k - 1] == Zeros(k - 1);
      ZerosParseToZero(k - 1);
    }
  }

  /** An error code from 0 to 9999 survives into the plate: the characters after "ERR" read back as the code. */
  lemma ErrorCodeRoundTrip(code: Int32)
    requires 0 <= code < 10000
    ensures AllDigits(ErrorPlate(code)[3..])
    ensures ParseDecimal(ErrorPlate(code)[3..]) == code
  {
    var digits := Decimal(code);
    DecimalLength(code);
    var text := "ERR" + FormatZeroPadded3(code);
    assert ErrorPlate(code) == text;
    assert text[3..] == FormatZeroPadded3(code);
    ParseDecimalRoundTrip(code);
    if |digits| < 3 {
      LeadingZerosIgnored(3 - |digits|, digits);
    }
  }

  lemma {:induction false} DecimalLength(n: nat)
    ensures n < 10000 ==> |Decimal(n)| <= 4
    ensures n < 1000 ==> |Decimal(n)| <= 3
    decreases n
  {
    if n >= 10 {
      DecimalLength(n / 10);
    }
  }

  /** The error plates of the format's edge cases. */
  lemma ErrorPlateExamples()
    ensures ErrorPlate(5) == "ERR005"
    ensures ErrorPlate(42) == "ERR042"
  {
    assert Decimal(5) == "5";
    assert Decimal(42) == "42";
  }

  /** A negative code keeps its sign inside the three characters. */
  lemma ErrorPlateKeepsSign()
    ensures ErrorPlate(-5) == "ERR-05"
  {
    assert Decimal(5) == "5";
  }

  /** A five-digit code loses its last digit to the 8-byte buffer. */
  lemma ErrorPlateCutsLongCode()
    ensures ErrorPlate(12345) == "ERR1234"
  {
    assert Decimal(12345) == "12345";
  }

  // ---------------------------------------------------------------- events -> results

  /** A data event whose data and plate pointers are both non-NULL. */
  predicate CarriesPlate(evt: CameraEvent)
  {
    evt.DataEvent? && evt.capturedData.Some? && evt.capturedData.value.plate.Some?
  }

  /** The result camera_evt_processor_thread publishes for one event received at `now`. */
  function EventResult(evt: CameraEvent, now: Uptime): (result: CameraResultEvent)
    ensures result.timestamp == now && |result.plate| <= PLATE_CHARS
    ensures result.valid <==> CarriesPlate(evt) && PlateValidator.ValidateMercosulPlate(Some(result.plate)).valid
    ensures result.valid ==> |result.plate| == PlateValidator.PLATE_LENGTH
    ensures CarriesPlate(evt) ==> result.plate == CleanedPlate(evt.capturedData.value.plate.value)
  {
    match evt
    case DataEvent(data) =>
      if data.Some? && data.value.plate.Some? then
        var clean := CleanedPlate(data.value.plate.value);
        CameraResultEvent(clean, PlateValidator.ValidateMercosulPlate(Some(clean)).valid, now)
      else
        CameraResultEvent(NULL_DATA_PLATE, false, now)
    case ErrorEvent(code) =>
      CameraResultEvent(ErrorPlate(code), false, now)
    case OtherEvent(_) =>
      CameraResultEvent(UNKNOWN_EVENT_PLATE, false, now)
  }

  /** The body of camera_evt_processor_thread's loop for one received event. */
  method ProcessCameraEvent(evt: CameraEvent, now: Uptime) returns (result: CameraResultEvent)
    ensures result == EventResult(evt, now)
  {
    match evt {
      case DataEvent(data) =>
        if data.Some? && data.value.plate.Some? {
          var copied := Truncate(data.value.plate.value, PLATE_CHARS);
          var clean := StripSpaces(copied);
          var check := PlateValidator.ValidateMercosulPlate(Some(clean));
          result := CameraResultEvent(clean, check.valid, now);
        } else {
          result := CameraResultEvent(NULL_DATA_PLATE, false, now);
        }
      case ErrorEvent(code) =>
        result := CameraResultEvent(ErrorPlate(code), false, now);
      case OtherEvent(_) =>
        result := CameraResultEvent(UNKNOWN_EVENT_PLATE, false, now);
    }
  }

  /** process_camera_capture: a non-zero return from starting the capture publishes an "ERROR" result
      at once; otherwise the result arrives later as a camera event. */
  function CaptureStartResult(ret: int, now: Uptime): (failure: Option<CameraResultEvent>)
    ensures failure.Some? <==> ret != 0
    ensures failure.Some? ==> failure.value.plate == "ERROR" && !failure.value.valid && failure.value.timestamp == now
                              && !PlateValidator.ValidateMercosulPlate(Some(failure.value.plate)).valid
  {
    if ret != 0 then Some(CameraResultEvent(CAPTURE_START_FAILED_PLATE, false, now)) else None
  }

  // ---------------------------------------------------------------- properties

  /** Cleaning is idempotent, and leaves a space-free plate of at most 7 characters unchanged. */
  lemma CleanedPlateIdempotent(raw: CString)
    ensures CleanedPlate(CleanedPlate(raw)) == CleanedPlate(raw)
    ensures ' ' !in raw && |raw| <= PLATE_CHARS ==> CleanedPlate(raw) == raw
  {
    NonSpacesOfSpaceFree(CleanedPlate(raw));
    if ' ' !in raw && |raw| <= PLATE_CHARS {
      NonSpacesOfSpaceFree(raw);
    }
  }

  /** The published plate is what is left of the first 7 incoming characters once spaces are removed. */
  lemma CleanedPlateIsFilteredPrefix(raw: CString)
    ensures CleanedPlate(raw) == NonSpaces(Truncate(raw, PLATE_CHARS))
  {
  }

  /** Spaces are removed only after the cut to 7 characters: a spaced 8-character reading of a valid
      Brazilian plate loses its last digit and is published as invalid. */
  lemma SpacedPlateLosesTail()
    ensures CleanedPlate("ABC 1D23") == "ABC1D2"
    ensures !EventResult(DataEvent(Some(CapturedData(Some("ABC 1D23")))), 0).valid
  {
    assert Truncate("ABC 1D23", PLATE_CHARS) == "ABC" + " " + "1D2";
    NonSpacesAroundOneSpace("ABC", "1D2");
    NonSpacesOfSpaceFree("1D2");
    assert "ABC" + "1D2" == "ABC1D2";
    PlateValidator.RejectsWrongLength(Some("ABC1D2"));
  }

  /** Every space inside a reading of at most 7 characters is removed, and the rest closes up. */
  lemma SpacesInsideShortReading()
    ensures CleanedPlate("A B C1D") == "ABC1D"
  {
    assert Truncate("A B C1D", PLATE_CHARS) == "A" + " " + ("B" + " " + "C1D");
    NonSpacesAroundOneSpace("A", "B" + " " + "C1D");
    NonSpacesAroundOneSpace("B", "C1D");
    NonSpacesOfSpaceFree("C1D");
    assert "A" + ("B" + "C1D") == "ABC1D";
  }

  lemma NonSpacesAroundOneSpace(a: string, b: string)
    requires ' ' !in a
    ensures NonSpaces(a + " " + b) == a + NonSpaces(b)
  {
    NonSpacesConcat(a + " ", b);
    NonSpacesConcat(a, " ");
    NonSpacesOfSpaceFree(a);
    assert NonSpaces(" ") == [];
  }

  /** A space-free Brazilian plate passes through unchanged and is published as valid. */
  lemma DataEventExamples(now: Uptime)
    ensures EventResult(DataEvent(Some(CapturedData(Some("ABC1D23")))), now) == CameraResultEvent("ABC1D23", true, now)
  {
    NonSpacesOfSpaceFree("ABC1D23");
    assert CleanedPlate("ABC1D23") == "ABC1D23";
    PlateValidator.BrazilTestVectors();
  }

  /** A space-free reading that fits no format passes through unchanged and is published as invalid. */
  lemma GarbageDataEventExample(now: Uptime)
    ensures EventResult(DataEvent(Some(CapturedData(Some("garbage")))), now) == CameraResultEvent("garbage", false, now)
  {
    NonSpacesOfSpaceFree("garbage");
    assert CleanedPlate("garbage") == "garbage";
    assert !PlateValidator.IsDigit('g');
  }

  /** Missing data, errors and unknown event types are all published as invalid, with their markers. */
  lemma FailureEventResults(code: Int32, eventType: int, now: Uptime)
    ensures EventResult(DataEvent(None), now) == CameraResultEvent("NULL", false, now)
    ensures EventResult(DataEvent(Some(CapturedData(None))), now) == CameraResultEvent("NULL", false, now)
    ensures EventResult(ErrorEvent(code), now) == CameraResultEvent(ErrorPlate(code), false, now)
    ensures EventResult(OtherEvent(eventType), now) == CameraResultEvent("UNKNOWN", false, now)
  {
  }

  /** An error marker can still look like a plate: code 1234 publishes "ERR1234", which fits the
      Uruguayan format, yet the result is marked invalid. */
  lemma ErrorMarkerFitsUruguayFormat()
    ensures ErrorPlate(1234) == "ERR1234"
    ensures PlateValidator.ValidateUruguayPlate(Some(ErrorPlate(1234)))
    ensures !EventResult(ErrorEvent(1234), 0).valid
  {
    assert Decimal(1234) == "1234";
  }
}
