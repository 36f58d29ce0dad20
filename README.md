# Placement agency input validator, in Dafny

The placement agency ("Agencia de Colocación Inteligente") hands a student
record to a crew of LLM agents that read a CV, search for job postings and
draft applications. Before the crew is started, the entry point checks the
record with `validate_inputs`. That check is the only decision the
repository makes itself, and it is what this project models and proves
things about.

The record is a dictionary of strings. The validator:

- reads `nombre_estudiante` and `cv_text` with `dict.get`, so a missing key
  is `None`;
- rejects a name that is missing, empty or whitespace only, and it checks
  the name first;
- then rejects a CV that is missing, empty, or shorter than
  `MIN_CV_LENGTH = 50` characters once `str.strip()` has removed the
  whitespace at both ends;
- raises `InputValidationError` with a Spanish message that names the
  field. The CV message also reports the stripped length it measured, or 0
  when there is no text;
- otherwise returns nothing and leaves the record unchanged.

Files:

- `wrappers.dfy` (module `Wrappers`): `Option`, for `dict.get`, and
  `Outcome`, for "returns normally or raises".
- `text.dfy` (module `Text`): the Python string operations the validator
  uses. `IsSpace` is `str.isspace`, using the same set of Unicode code
  points as CPython's whitespace table. `Strip` is `str.strip()`. `NatToDecimal` is `str(int)`, which
  the f-string uses. `Contains` is the substring test that the tests'
  `pytest.raises(match=...)` performs. Strings are sequences of Unicode
  scalar values, so `|s|` is Python's `len(s)` for every string without
  lone surrogates.
- `exceptions.dfy` (module `Exceptions`): the exception taxonomy as one
  datatype, `AgencyError`. It has one variant per class. Every class
  derives from one base class, so every variant carries that base class's
  message.
- `main.dfy` (module `Main`): the validator. `Validate` is the decision
  and gives a structured reason (`NameRequired` or `CvTooShort(received)`).
  `Message` renders the reason as the exception's text. `ValidateInputs`
  is `validate_inputs` as its caller sees it. The module also holds the
  lemmas about these and the repository's own test cases.

`validate_inputs` is pure: it reads two entries and compares lengths.
Every operation here is therefore a function. There are no classes, loops
or mutable state. A Dafny function cannot change its argument, so "the
validator does not modify the record" holds by construction.

## Model

| member | source | states |
|---|---|---|
| Text.WhitespaceTable | main.py:47-52 | `IsSpace`, the set of characters `strip()` removes, accepts exactly the 29 code points of CPython's `str.isspace` table: U+0009-000D, U+001C-0020, U+0085, U+00A0, U+1680, U+2000-200A, U+2028, U+2029, U+202F, U+205F and U+3000 |
| Text.TrimStart | main.py:52 | the result is a suffix of the input. Everything dropped is whitespace. The result is empty or starts with non-whitespace |
| Text.TrimEnd | main.py:52 | the result is a prefix of the input. Everything dropped is whitespace. The result is empty or ends with non-whitespace |
| Text.Strip | main.py:47-52 | `str.strip()` never lengthens its input. It gives `""` exactly when the input is empty or all whitespace. Otherwise the result starts and ends with non-whitespace |
| Text.StripSlice | main.py:52 | the stripped text is a contiguous slice of the input, and only whitespace lies before it and after it |
| Text.StripCharacterised | main.py:52 | strip defined independently: if the text splits into a blank prefix, a core with no whitespace at either end, and a blank suffix, then `Strip` returns exactly that core |
| Text.StripIdempotent | main.py:52 | stripping twice gives the same result as stripping once |
| Text.StripUntrimmed | main.py:52 | text with no whitespace at either end is unchanged by `Strip` |
| Text.Repeat | tests/test_agencia.py:33 | Python's `c * n` for one character: exactly `n` characters, each `c`. It builds the tests' fixture CVs, `"A" * 60` here and `"   " * 30` (the same 90 spaces) at line 77 |
| Text.NatToDecimal | main.py:55 | the length rendered in the f-string is a non-empty run of decimal digits with no leading zero, except for "0" |
| Text.DecimalRoundTrip | main.py:55 | reading the rendered digits back gives the original number |
| Text.Contains | tests/test_agencia.py:44-45 | the substring test of `pytest.raises(match=...)` on a literal pattern: it holds exactly when the pattern occurs in the message at some index |
| Text.ContainsInfix | tests/test_agencia.py:44-45 | a message built around a field name contains that name, which is what `pytest.raises(match=...)` checks |
| Wrappers.Get | main.py:44-45 | `inputs.get(key)` gives a value exactly when the key is present, and that value is the stored one; a missing key gives `None` |
| Main.Truthy | main.py:47-52 | `not x` on a `str` or `None` is true only for `None` and `""`. A present string that is false is blank, so `not x or not x.strip()` rejects exactly the missing and the blank values |
| Main.ReportedLength | main.py:55 | the reported length is the stripped CV's length when `cv_text` is present, and 0 when it is absent |
| Main.Validate | main.py:44-56 | every CV rejection reports a length below `MIN_CV_LENGTH` (50) |
| Main.Message | main.py:47-56 | the message names the rejected field. For the CV, the message ends with the measured length in decimal, and that length can be parsed back out. The name message carries no length |
| Main.ValidateInputs | main.py:34-56 | the call returns normally exactly for well-formed records: a non-blank name, and a CV whose stripped length is at least 50. Otherwise it raises only InputValidationError. A bad name gives a message naming `nombre_estudiante`. A good name with a bad CV gives a message naming `cv_text` that reports the measured length |
| Main.NameRejected | main.py:47-50 | a missing, empty or whitespace-only name is rejected as `NameRequired` whatever `cv_text` holds, because the name is checked first |
| Main.CvRejected | main.py:52-56 | with a usable name, a missing CV or one whose stripped length is below 50 is rejected as `CvTooShort`. It reports the stripped length, or 0 when the key is absent |
| Main.BlankCvRejected | main.py:52 | length is measured after stripping, so a whitespace-only CV of any raw length is rejected with length 0 |
| Main.AcceptsExactlyWellFormed | main.py:47-56 | the validator accepts a record if and only if the name is present and non-blank and the CV is present with a stripped length of at least 50 |
| Main.OtherKeysIgnored | main.py:44-45 | adding or changing a key other than `nombre_estudiante` and `cv_text` does not change the outcome |
| Main.LetterCvAccepted | tests/test_agencia.py:29-36 | any non-blank name (leading or trailing whitespace allowed) with a CV of n >= 50 copies of `'A'` passes. This covers the test's `"A" * 60` and exactly 50, because the threshold is inclusive |
| Main.EmptyOrMissingNameRejected | tests/test_agencia.py:38-53 | an empty name, or no name key at all, raises InputValidationError mentioning `nombre_estudiante` |
| Main.EmptyCvRejected | tests/test_agencia.py:55-62 | an empty CV raises InputValidationError mentioning `cv_text` and reports 0 |
| Main.ShortCvRejected | tests/test_agencia.py:64-71 | the CV "CV corto" raises InputValidationError mentioning `cv_text` and reports 8 |
| Main.NinetySpacesRejected | tests/test_agencia.py:73-80 | a CV of 90 spaces raises InputValidationError mentioning `cv_text` and reports 0 characters |

## Left out

- `run_agencia` (main.py:59-128) is left out. It loads a `.env` file, reads
  the environment, writes log lines, calls the crew's `kickoff` and turns
  every caught error into `sys.exit(1)`. That is all I/O and process
  control, with no decision of the repository's own beyond the check above.
- `agencia_crew.py` is not part of this model. It builds `LLM`, `Agent`,
  `Task` and `Crew` objects of an external agent framework from YAML
  configuration. These are foreign calls with no behaviour visible here.
  Its `GROQ_API_KEY` check is a single environment read.
- Exception subclassing: Python's `isinstance` relations between the
  exception classes are flattened into the variants of `AgencyError`.
  Only `InputValidation` is produced by the modelled code.
- Values that are not strings: the record is typed `dict[str, str]`, so
  the model takes a `map<string, string>`. A `None` value is falsy and is
  rejected exactly as a missing key is, which the absent-key case covers.
  A truthy value without `strip` raises `AttributeError`, and a `bytes`
  value would be stripped of ASCII whitespace only, with `len` counting
  bytes. Neither of these is modelled.
- Lone surrogates: a Dafny `char` is a Unicode scalar value, so a Python
  string holding a lone surrogate (U+D800-DFFF, for example after
  `surrogateescape` decoding) cannot be given to the model. Such
  characters are not whitespace in Python, so they would only add to the
  stripped length.
- The exception object: only its message text is modelled. Its traceback
  and the way the message is logged are not.
