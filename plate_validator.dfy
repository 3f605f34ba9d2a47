/** The Mercosul plate-format validators of src/utils/plate_validator.h: one
    position-by-position check per country and a first-match dispatcher. */
module PlateValidator {
  import opened RadarTypes

  datatype Country = Unknown | Brazil | Argentina | Paraguay | Uruguay

  /** The result of validate_mercosul_plate together with its `country` out-parameter. */
  datatype PlateCheck = PlateCheck(valid: bool, country: Country)

  const PLATE_LENGTH: nat := 7

  /** isalpha in the C locale (upper- and lower-case ASCII letters). */
  predicate IsAlpha(c: char)
  {
    'A' <= c <= 'Z' || 'a' <= c <= 'z'
  }

  /** isdigit: the ASCII digits. */
  predicate IsDigit(c: char)
  {
    '0' <= c <= '9'
  }

  // Reference definition of the four formats: 'L' is a letter and 'D' a digit, position by position.
  const BRAZIL_FORMAT: string := "LLLDLDD"
  const ARGENTINA_FORMAT: string := "LLDDDLL"
  const PARAGUAY_FORMAT: string := "LLLLDDD"
  const URUGUAY_FORMAT: string := "LLLDDDD"

  predicate FitsClass(c: char, cls: char)
  {
    if cls == 'L' then IsAlpha(c) else IsDigit(c)
  }

  predicate MatchesFormat(s: string, format: string)
  {
    |s| == |format| && forall i | 0 <= i < |s| :: FitsClass(s[i], format[i])
  }

  /** validate_brazil_plate: LLL D L DD. */
  function ValidateBrazilPlate(plate: Option<CString>): (valid: bool)
    ensures valid <==> plate.Some? && MatchesFormat(plate.value, BRAZIL_FORMAT)
  {
    match plate
    case None => false
    case Some(s) =>
      if |s| != PLATE_LENGTH then false
      else if !IsAlpha(s[0]) || !IsAlpha(s[1]) || !IsAlpha(s[2]) then false
      else if !IsDigit(s[3]) then false
      else if !IsAlpha(s[4]) then false
      else if !IsDigit(s[5]) || !IsDigit(s[6]) then false
      else true
  }

  /** validate_argentina_plate: LL DDD LL. */
  function ValidateArgentinaPlate(plate: Option<CString>): (valid: bool)
    ensures valid <==> plate.Some? && MatchesFormat(plate.value, ARGENTINA_FORMAT)
  {
    match plate
    case None => false
    case Some(s) =>
      if |s| != PLATE_LENGTH then false
      else if !IsAlpha(s[0]) || !IsAlpha(s[1]) then false
      else if !IsDigit(s[2]) || !IsDigit(s[3]) || !IsDigit(s[4]) then false
      else if !IsAlpha(s[5]) || !IsAlpha(s[6]) then false
      else true
  }

  /** validate_paraguay_plate: LLLL DDD. */
  function ValidateParaguayPlate(plate: Option<CString>): (valid: bool)
    ensures valid <==> plate.Some? && MatchesFormat(plate.value, PARAGUAY_FORMAT)
  {
    match plate
    case None => false
    case Some(s) =>
      if |s| != PLATE_LENGTH then false
      else if !IsAlpha(s[0]) || !IsAlpha(s[1]) || !IsAlpha(s[2]) || !IsAlpha(s[3]) then false
      else if !IsDigit(s[4]) || !IsDigit(s[5]) || !IsDigit(s[6]) then false
      else true
  }

  /** validate_uruguay_plate: LLL DDDD. */
  function ValidateUruguayPlate(plate: Option<CString>): (valid: bool)
    ensures valid <==> plate.Some? && MatchesFormat(plate.value, URUGUAY_FORMAT)
  {
    match plate
    case None => false
    case Some(s) =>
      if |s| != PLATE_LENGTH then false
      else if !IsAlpha(s[0]) || !IsAlpha(s[1]) || !IsAlpha(s[2]) then false
      else if !IsDigit(s[3]) || !IsDigit(s[4]) || !IsDigit(s[5]) || !IsDigit(s[6]) then false
      else true
  }

  /** Whether the validator of `country` accepts `plate`; no validator belongs to Unknown. */
  function Accepts(country: Country, plate: Option<CString>): bool
  {
    match country
    case Unknown => false
    case Brazil => ValidateBrazilPlate(plate)
    case Argentina => ValidateArgentinaPlate(plate)
    case Paraguay => ValidateParaguayPlate(plate)
    case Uruguay => ValidateUruguayPlate(plate)
  }

  /** validate_mercosul_plate: valid iff some country's format matches, and the reported country is
      exactly the one whose validator accepts (the formats are disjoint, so the first match in the
      order Brazil, Argentina, Paraguay, Uruguay is the only one); Unknown when none does. */
  function ValidateMercosulPlate(plate: Option<CString>): (r: PlateCheck)
    ensures r.valid <==> r.country != Unknown
    ensures r.valid ==> plate.Some? && |plate.value| == PLATE_LENGTH
    ensures forall country :: Accepts(country, plate) <==> r.valid && country == r.country
  {
    FormatsDisjoint(plate);
    match plate
    case None => PlateCheck(false, Unknown)
    case Some(s) =>
      if |s| != PLATE_LENGTH then PlateCheck(false, Unknown)
      else if ValidateBrazilPlate(plate) then PlateCheck(true, Brazil)
      else if ValidateArgentinaPlate(plate) then PlateCheck(true, Argentina)
      else if ValidateParaguayPlate(plate) then PlateCheck(true, Paraguay)
      else if ValidateUruguayPlate(plate) then PlateCheck(true, Uruguay)
      else PlateCheck(false, Unknown)
  }

  /** get_country_name. */
  function CountryName(country: Country): (name: string)
    ensures name == "Desconhecido" <==> country == Unknown
  {
    match country
    case Brazil => "Brasil"
    case Argentina => "Argentina"
    case Paraguay => "Paraguai"
    case Uruguay => "Uruguai"
    case Unknown => "Desconhecido"
  }

  // ---------------------------------------------------------------- properties

  lemma NoCharIsLetterAndDigit(c: char)
    ensures !(IsAlpha(c) && IsDigit(c))
  {
  }

  /** A position where one format wants a letter and the other a digit separates the two formats. */
  lemma SeparatedAt(s: string, f1: string, f2: string, i: nat)
    requires i < |f1| == |f2| && f1[i] == 'L' && f2[i] == 'D'
    ensures !(MatchesFormat(s, f1) && MatchesFormat(s, f2))
  {
    if MatchesFormat(s, f1) && MatchesFormat(s, f2) {
      assert FitsClass(s[i], f1[i]) && FitsClass(s[i], f2[i]);
      NoCharIsLetterAndDigit(s[i]);
    }
  }

  /** The four formats are pairwise disjoint: no plate is accepted by two countries. */
  lemma FormatsDisjoint(plate: Option<CString>)
    ensures forall c1, c2 :: Accepts(c1, plate) && Accepts(c2, plate) ==> c1 == c2
  {
    if plate.Some? {
      var s := plate.value;
      SeparatedAt(s, BRAZIL_FORMAT, ARGENTINA_FORMAT, 2);
      SeparatedAt(s, PARAGUAY_FORMAT, BRAZIL_FORMAT, 3);
      SeparatedAt(s, BRAZIL_FORMAT, URUGUAY_FORMAT, 4);
      SeparatedAt(s, PARAGUAY_FORMAT, ARGENTINA_FORMAT, 2);
      SeparatedAt(s, URUGUAY_FORMAT, ARGENTINA_FORMAT, 2);
      SeparatedAt(s, PARAGUAY_FORMAT, URUGUAY_FORMAT, 3);
    }
  }

  /** Every validator rejects NULL and every length other than 7. */
  lemma RejectsWrongLength(plate: Option<CString>)
    requires plate.None? || |plate.value| != PLATE_LENGTH
    ensures forall country :: !Accepts(country, plate)
    ensures ValidateMercosulPlate(plate) == PlateCheck(false, Unknown)
  {
  }

  /** The Brazilian plates of the tests, lower case included (isalpha accepts it). */
  lemma BrazilTestVectors()
    ensures ValidateMercosulPlate(Some("ABC1D23")) == PlateCheck(true, Brazil)
    ensures ValidateMercosulPlate(Some("XYZ9A99")) == PlateCheck(true, Brazil)
    ensures ValidateMercosulPlate(Some("AAA0A00")).valid
    ensures ValidateMercosulPlate(Some("abc1d23")) == PlateCheck(true, Brazil)
  {
  }

  /** The Argentinian and Paraguayan plates of the tests. */
  lemma ArgentinaParaguayTestVectors()
    ensures ValidateMercosulPlate(Some("AB123CD")) == PlateCheck(true, Argentina)
    ensures ValidateMercosulPlate(Some("XY999ZW")) == PlateCheck(true, Argentina)
    ensures ValidateMercosulPlate(Some("ABCD123")) == PlateCheck(true, Paraguay)
    ensures ValidateMercosulPlate(Some("WXYZ999")) == PlateCheck(true, Paraguay)
  {
  }

  /** The Uruguayan plates of the tests. */
  lemma UruguayTestVectors()
    ensures ValidateMercosulPlate(Some("ABC1234")) == PlateCheck(true, Uruguay)
    ensures ValidateMercosulPlate(Some("XYZ9999")) == PlateCheck(true, Uruguay)
  {
  }

  /** The plates of the tests rejected for their length or for being NULL. */
  lemma WrongLengthTestVectors()
    ensures ValidateMercosulPlate(Some("ABC123")) == PlateCheck(false, Unknown)
    ensures ValidateMercosulPlate(Some("ABC1D234")) == PlateCheck(false, Unknown)
    ensures ValidateMercosulPlate(Some("")) == PlateCheck(false, Unknown)
    ensures ValidateMercosulPlate(None) == PlateCheck(false, Unknown)
  {
  }

  /** The 7-character plates of the tests that fit no format. */
  lemma NoFormatTestVectors()
    ensures ValidateMercosulPlate(Some("1234567")) == PlateCheck(false, Unknown)
    ensures ValidateMercosulPlate(Some("ABCDEFG")) == PlateCheck(false, Unknown)
  {
  }

  /** The test plates with a character that is neither letter nor digit. */
  lemma SpecialCharacterTestVectors()
    ensures ValidateMercosulPlate(Some("AB@1D23")) == PlateCheck(false, Unknown)
    ensures ValidateMercosulPlate(Some("ABC1D2#")) == PlateCheck(false, Unknown)
  {
  }

  /** A hyphen in place of a digit makes a plate invalid. */
  lemma HyphenTestVector()
    ensures ValidateMercosulPlate(Some("ABC-D23")) == PlateCheck(false, Unknown)
  {
  }

  /** The country names, which tell every country apart. */
  lemma CountryNamesDistinct(c1: Country, c2: Country)
    ensures CountryName(c1) == CountryName(c2) ==> c1 == c2
    ensures CountryName(Brazil) == "Brasil" && CountryName(Argentina) == "Argentina"
    ensures CountryName(Paraguay) == "Paraguai" && CountryName(Uruguay) == "Uruguai"
    ensures CountryName(Unknown) == "Desconhecido"
  {
  }
}
