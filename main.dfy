/** The input validator of the placement agency's entry point: the student
    record handed to the crew must name the student and carry a CV of at
    least `MinCvLength` characters once surrounding whitespace is removed. */
module Main {
  import opened Wrappers
  import opened Text
  import opened Exceptions

  /** Minimum length, in characters, of a stripped CV. */
  const MinCvLength: nat := 50

  const NameKey: string := "nombre_estudiante"
  const CvKey: string := "cv_text"

  /** Why a record was rejected: the missing name, or a CV that is absent or
      too short, together with the length the validator measured. */
  datatype Rejection = NameRequired | CvTooShort(received: nat)

  /** The input field a rejection is about. */
  function RejectedField(rej: Rejection): string
  {
    match rej
    case NameRequired => NameKey
    case CvTooShort(_) => CvKey
  }

  /** Python truthiness of an optional string: `None` and `""` are false.
      A present string that is false is blank, so `not x or not x.strip()`
      rejects exactly the missing and the blank values. */
  predicate Truthy(v: Option<string>)
    ensures Truthy(v) ==> v.Some?
    ensures v.Some? ==> (Truthy(v) <==> v.value != "")
    ensures v.Some? && !Truthy(v) ==> IsBlank(v.value) && Strip(v.value) == []
  {
    v.Some? && v.value != ""
  }

  /** The reference condition: a record is acceptable when it has a name
      that is not blank and a CV whose stripped length reaches the minimum. */
  predicate WellFormed(inputs: map<string, string>)
  {
    && NameKey in inputs && !IsBlank(inputs[NameKey])
    && CvKey in inputs && |Strip(inputs[CvKey])| >= MinCvLength
  }

  /** The length the CV error reports: the stripped length of a present,
      non-empty CV, and 0 otherwise. */
  function ReportedLength(inputs: map<string, string>): (n: nat)
    ensures CvKey in inputs ==> n == |Strip(inputs[CvKey])|
    ensures CvKey !in inputs ==> n == 0
  {
    var cv := Get(inputs, CvKey);
    if Truthy(cv) then |Strip(cv.value)| else 0
  }

  /** The validator's decision. The name is checked before the CV. */
  function Validate(inputs: map<string, string>): (r: Outcome<Rejection>)
    ensures r.Fail? && r.error.CvTooShort? ==> r.error.received < MinCvLength
  {
    var nombre := Get(inputs, NameKey);
    var cv := Get(inputs, CvKey);
    if !Truthy(nombre) || Strip(nombre.value) == "" then
      Fail(NameRequired)
    else if !Truthy(cv) || |Strip(cv.value)| < MinCvLength then
      Fail(CvTooShort(ReportedLength(inputs)))
    else
      Pass
  }

  // ---------------------------------------------------------------------
  // Error messages

  /** The message raised for a missing or blank name. */
  const NameMessage: string := "El campo '" + NameKey + "' es obligatorio."

  /** Everything of the CV message before the reported length. */
  const CvMessagePrefix: string :=
    "El campo '" + CvKey + "' debe tener al menos " + NatToDecimal(MinCvLength) + " caracteres. Se recibieron "

  /** The message the InputValidationError is raised with. It names the
      rejected field, and for the CV it ends with the measured length. */
  function Message(rej: Rejection): (msg: string)
    ensures Contains(msg, RejectedField(rej))
    ensures rej.CvTooShort? ==> Contains(msg, NatToDecimal(rej.received))
    ensures ParseReceived(msg) == if rej.CvTooShort? then Some(rej.received) else None
  {
    match rej
    case NameRequired =>
      ContainsInfix("El campo '", NameKey, "' es obligatorio.");
      NameMessage
    case CvTooShort(n) =>
      var digits := NatToDecimal(n);
      var msg := CvMessagePrefix + digits + ".";
      var rest := "' debe tener al menos " + NatToDecimal(MinCvLength) + " caracteres. Se recibieron " + digits + ".";
      ContainsInfix("El campo '", CvKey, rest);
      assert msg == "El campo '" + CvKey + rest;
      ContainsInfix(CvMessagePrefix, digits, ".");
      assert msg[..|CvMessagePrefix|] == CvMessagePrefix;
      assert msg[|CvMessagePrefix|..|msg| - 1] == digits;
      DecimalRoundTrip(n);
      msg
  }

  /** Reads the reported length back out of a CV error message; `None` for
      any message not of that shape. */
  function ParseReceived(msg: string): (r: Option<nat>)
    ensures r.Some? ==> |msg| > |CvMessagePrefix| + 1 && msg[..|CvMessagePrefix|] == CvMessagePrefix
  {
    var p := |CvMessagePrefix|;
    if |msg| >= p + 2 && msg[..p] == CvMessagePrefix && msg[|msg| - 1] == '.'
       && AllDigits(msg[p..|msg| - 1])
    then Some(DecimalToNat(msg[p..|msg| - 1]))
    else None
  }

  /** `validate_inputs` as the entry point sees it: returns normally, or
      raises InputValidationError with the message of the rejection. */
  function ValidateInputs(inputs: map<string, string>): (r: Outcome<AgencyError>)
    ensures r.Pass? <==> WellFormed(inputs)
    ensures r.Fail? ==> r.error.InputValidation?
    ensures r.Fail? && (NameKey !in inputs || IsBlank(inputs[NameKey])) ==>
      Contains(r.error.message, NameKey) && ParseReceived(r.error.message) == None
    ensures r.Fail? && NameKey in inputs && !IsBlank(inputs[NameKey]) ==>
      && Contains(r.error.message, CvKey)
      && ParseReceived(r.error.message) == Some(ReportedLength(inputs))
  {
    match Validate(inputs)
    case Pass => Pass
    case Fail(rej) => Fail(InputValidation(Message(rej)))
  }

  // ---------------------------------------------------------------------
  // Properties of the decision

  /** A missing, empty or whitespace-only name is rejected as such, whatever
      the CV holds: the name check comes first. */
  lemma NameRejected(inputs: map<string, string>)
    requires NameKey !in inputs || IsBlank(inputs[NameKey])
    ensures Validate(inputs) == Fail(NameRequired)
  {
  }

  /** With a usable name, a CV that is missing or whose stripped length is
      under the minimum is rejected, reporting the measured length. */
  lemma CvRejected(inputs: map<string, string>)
    requires NameKey in inputs && !IsBlank(inputs[NameKey])
    requires CvKey !in inputs || |Strip(inputs[CvKey])| < MinCvLength
    ensures Validate(inputs) == Fail(CvTooShort(ReportedLength(inputs)))
  {
  }

  /** A CV of whitespace only is rejected, whatever its raw length, and
      reported as 0 characters long. */
  lemma BlankCvRejected(inputs: map<string, string>)
    requires NameKey in inputs && !IsBlank(inputs[NameKey])
    requires CvKey in inputs && IsBlank(inputs[CvKey])
    ensures Validate(inputs) == Fail(CvTooShort(0))
  {
  }

  /** The validator accepts exactly the well-formed records. */
  lemma AcceptsExactlyWellFormed(inputs: map<string, string>)
    ensures Validate(inputs) == Pass <==> WellFormed(inputs)
  {
  }

  /** Keys other than the two checked ones do not affect the decision. */
  lemma OtherKeysIgnored(inputs: map<string, string>, k: string, v: string)
    requires k != NameKey && k != CvKey
    ensures Validate(inputs[k := v]) == Validate(inputs)
  {
  }

  // ---------------------------------------------------------------------
  // Concrete records, as exercised by the repository's unit tests

  /** A named student with a CV of `n >= 50` copies of 'A' passes; in particular
      the 60-letter CV of the unit tests, and exactly 50 letters, since the
      threshold is inclusive. */
  lemma LetterCvAccepted(name: string, n: nat)
    requires !IsBlank(name)
    requires n >= MinCvLength
    ensures ValidateInputs(map[NameKey := name, CvKey := Repeat('A', n)]) == Pass
  {
    var m := map[NameKey := name, CvKey := Repeat('A', n)];
    var cv := Repeat('A', n);
    assert m[NameKey] == name && m[CvKey] == cv;
    assert |Strip(m[CvKey])| >= MinCvLength by { StripUntrimmed(cv); }
    assert !IsBlank(m[NameKey]);
    assert WellFormed(m);
  }

  /** An empty name, or no name at all, raises InputValidationError with a
      message that names `nombre_estudiante`. */
  lemma EmptyOrMissingNameRejected(cv: string)
    ensures var r := ValidateInputs(map[NameKey := "", CvKey := cv]);
      r.Fail? && r.error.InputValidation? && Contains(r.error.message, "nombre_estudiante")
    ensures var r := ValidateInputs(map[CvKey := cv]);
      r.Fail? && r.error.InputValidation? && Contains(r.error.message, "nombre_estudiante")
  {
    var m := map[NameKey := "", CvKey := cv];
    assert m[NameKey] == "";
    NameRejected(m);
    NameRejected(map[CvKey := cv]);
  }

  /** An empty CV raises InputValidationError with a message that names
      `cv_text` and reports the length 0. */
  lemma EmptyCvRejected(name: string)
    requires !IsBlank(name)
    ensures var r := ValidateInputs(map[NameKey := name, CvKey := ""]);
      && r.Fail? && r.error.InputValidation?
      && Contains(r.error.message, "cv_text")
      && ParseReceived(r.error.message) == Some(0)
  {
    var m := map[NameKey := name, CvKey := ""];
    assert m[NameKey] == name && m[CvKey] == "";
    CvRejected(m);
  }

  /** The 8-character CV "CV corto" raises InputValidationError with a
      message that names `cv_text` and reports the length 8. */
  lemma ShortCvRejected(name: string)
    requires !IsBlank(name)
    ensures var r := ValidateInputs(map[NameKey := name, CvKey := "CV corto"]);
      && r.Fail? && r.error.InputValidation?
      && Contains(r.error.message, "cv_text")
      && ParseReceived(r.error.message) == Some(8)
  {
    var m := map[NameKey := name, CvKey := "CV corto"];
    StripUntrimmed("CV corto");
    assert m[NameKey] == name && m[CvKey] == "CV corto";
    assert ReportedLength(m) == 8;
    assert !WellFormed(m);
  }

  /** Ninety spaces are not a CV: InputValidationError with a message that
      names `cv_text` and reports 0 characters. */
  lemma NinetySpacesRejected(name: string)
    requires !IsBlank(name)
    ensures var r := ValidateInputs(map[NameKey := name, CvKey := Repeat(' ', 90)]);
      && r.Fail? && r.error.InputValidation?
      && Contains(r.error.message, "cv_text")
      && ParseReceived(r.error.message) == Some(0)
  {
    var m := map[NameKey := name, CvKey := Repeat(' ', 90)];
    assert m[NameKey] == name && m[CvKey] == Repeat(' ', 90);
    BlankCvRejected(m);
  }
}
