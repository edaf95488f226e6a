# UAE IBAN validator and bank-code registry, in Dafny

This project models the core of a small Java service that validates United
Arab Emirates IBANs and serves lookups over a registry of UAE bank codes. It
also proves properties of that model. There are three parts.

- **The IBAN constraint validator** (`AeIbanValidator`). A value is
  normalised: trimmed, upper-cased, and stripped of whitespace. It then
  passes a fixed chain of guards, and the first guard that fails gives the
  single rejection reason:
  1. required;
  2. alphanumeric;
  3. `AE` prefix;
  4. length 23;
  5. structure and check digits;
  6. known bank code;
  7. bank code valid under the registry's policy.

  The structure and check-digit step is a call into the IBAN library. It is
  re-specified in `IbanCheck` from two sources. The layout is the AE entry
  of the SWIFT IBAN Registry: "AE", 2 check digits, a 3-digit bank code and
  a 16-digit account number. The check digits follow ISO 13616-1, which
  uses ISO/IEC 7064 MOD 97-10.
- **The bank-code registry** (`BankRegistry`). CSV lines are loaded once
  into a map keyed by the 3-digit code; the first valid row for a code wins.
  The map sits behind a `Registry` class with an immutable `liveOnly` flag.
  That flag gates `IsValid` and `Search`; `Get` ignores it.
- **The banks endpoint helpers** (`BanksController`):
  - zero-padding of the path code;
  - clamping of the search limit into [1, 200];
  - an in-place sort of the search results by bank code.

`JavaText` states the `java.lang.String` operations these rely on: `trim`,
`isBlank`, ASCII case mapping, `replaceAll("\\s+", "")`, `split(",", -1)`,
`equalsIgnoreCase`, `contains` and `compareTo`. `Wrappers` holds `Option`
and `Result`.

Java's `null` arguments are `None`. The validator's writes into the
validation context become the returned `Outcome` (`Accept` or
`Reject(reason)`). `Message` gives each reason's exact text.
`Stream.limit` throws for a negative size; here that is
`Failure(NegativeLimit)`. The HashMap's iteration order is an explicit
parameter `order`: a repeat-free listing of the map's keys.

Validation is not quite invariant under normalisation. Take an input that
is not blank but whose normal form is, such as a lone NUL character. `trim`
removes it, yet `isBlank` does not count it as whitespace. The input is
therefore rejected as not alphanumeric, while its normal form is rejected
as required. The model follows the code.
`AeIbanValidator.ValidateOfNormalForm` proves that this is the only case
where the two verdicts differ, and `AeIbanValidator.NormalFormMayBeBlank`
exhibits the NUL case.

## Model

| member | source | states |
|---|---|---|
| AeIbanValidator.Normalize | src/main/java/com/pearldatadirect/ibanvalidator/validation/AeIbanValidator.java:66-68 | the normal form holds no regex whitespace and no lower-case ASCII letter, and has nothing `trim` would remove at either end |
| AeIbanValidator.NormalizeIdempotent | src/main/java/com/pearldatadirect/ibanvalidator/validation/AeIbanValidator.java:66-68 | normalising twice gives the same as normalising once |
| AeIbanValidator.NormalizeOfClean | src/main/java/com/pearldatadirect/ibanvalidator/validation/AeIbanValidator.java:66-68 | a trimmed, upper-case, whitespace-free string is its own normal form |
| AeIbanValidator.NormalizeOfIbanText | src/main/java/com/pearldatadirect/ibanvalidator/validation/AeIbanValidator.java:25-30 | a non-empty string over [A-Z0-9] is its own normal form and is not blank |
| AeIbanValidator.NormalizeKeepsCharacters | src/main/java/com/pearldatadirect/ibanvalidator/validation/AeIbanValidator.java:66-68 | every character of the normal form is the upper-case image of some input character |
| AeIbanValidator.NormalizeOfBlank | src/main/java/com/pearldatadirect/ibanvalidator/validation/AeIbanValidator.java:21-25 | a blank input has a blank normal form |
| AeIbanValidator.BankCode | src/main/java/com/pearldatadirect/ibanvalidator/validation/AeIbanValidator.java:51 | the bank code is three characters long (those at indices 4 to 6) |
| AeIbanValidator.CheckNormalized | src/main/java/com/pearldatadirect/ibanvalidator/validation/AeIbanValidator.java:27-63 | the guards after the first never report "required" or "unsupported country"; accepting implies length 23, the AE prefix and layout, valid check digits, a present bank code and `isValid` for it |
| AeIbanValidator.Validate | src/main/java/com/pearldatadirect/ibanvalidator/validation/AeIbanValidator.java:20-25 | the reason is "IBAN is required" exactly when the value is null or blank; "Unsupported IBAN country" is never reported |
| AeIbanValidator.Message | src/main/java/com/pearldatadirect/ibanvalidator/validation/AeIbanValidator.java:22-60 | every reason has a non-empty message beginning with a capital letter |
| AeIbanValidator.IsAlphanumeric | src/main/java/com/pearldatadirect/ibanvalidator/validation/AeIbanValidator.java:28 | a value matching `^[A-Z0-9]+$` is non-empty, not blank, and holds no regex whitespace and no lower-case letter |
| AeIbanValidator.CheckReason | src/main/java/com/pearldatadirect/ibanvalidator/validation/AeIbanValidator.java:42-47 | each of the three library failures is reported as a reason of the library guard (the fifth) |
| AeIbanValidator.MessagesDiffer | src/main/java/com/pearldatadirect/ibanvalidator/validation/AeIbanValidator.java:22-60 | different reasons carry different messages |
| AeIbanValidator.ValidateOfNormalForm | src/main/java/com/pearldatadirect/ibanvalidator/validation/AeIbanValidator.java:21-25 | the input and its normal form get the same verdict if and only if it is not the case that the input is non-blank while its normal form is blank |
| AeIbanValidator.NormalFormMayBeBlank | src/main/java/com/pearldatadirect/ibanvalidator/validation/AeIbanValidator.java:21-30 | a lone NUL character is rejected as not alphanumeric, while its normal form is rejected as required |
| AeIbanValidator.StructureGuard | src/main/java/com/pearldatadirect/ibanvalidator/validation/AeIbanValidator.java:40-48 | once the first four guards pass, the library check fails exactly when the layout or the check digits fail, and never with an unsupported country |
| AeIbanValidator.FirstFailingGuardWins | src/main/java/com/pearldatadirect/ibanvalidator/validation/AeIbanValidator.java:20-63 | acceptance holds if and only if none of the seven guards fails; a rejection carries the reason of a failing guard, and every earlier guard passes; the check-digit reason is given if and only if guards 1-4 pass, the layout holds, and the digits are wrong |
| AeIbanValidator.AcceptIffNoGuardFails | src/main/java/com/pearldatadirect/ibanvalidator/validation/AeIbanValidator.java:20-63 | the value is accepted if and only if none of the seven guards fails |
| AeIbanValidator.RejectAtFirstFailingGuard | src/main/java/com/pearldatadirect/ibanvalidator/validation/AeIbanValidator.java:20-63 | a rejection names a guard that fails, and every earlier guard passes |
| AeIbanValidator.CheckDigitsReasonExactly | src/main/java/com/pearldatadirect/ibanvalidator/validation/AeIbanValidator.java:40-45 | "Invalid IBAN check digits" is given if and only if the first four guards pass, the AE layout holds and the check digits are wrong |
| AeIbanValidator.AcceptedExactly | src/main/java/com/pearldatadirect/ibanvalidator/validation/AeIbanValidator.java:36-63 | acceptance holds if and only if the value is present, its normal form has the AE layout and valid MOD 97-10 check digits, and its bank code is loaded and valid under the policy |
| AeIbanValidator.OneDigitChangeRejected | src/main/java/com/pearldatadirect/ibanvalidator/validation/AeIbanValidator.java:44-45 | replacing any one digit of a valid AE IBAN (check digits or BBAN) by another digit gives "Invalid IBAN check digits" |
| AeIbanValidator.BankCodeDecides | src/main/java/com/pearldatadirect/ibanvalidator/validation/AeIbanValidator.java:51-61 | with valid structure and checksum, an unloaded code gives "Unknown UAE bank code"; a loaded code that is not Live under live-only gives "Inactive UAE bank code"; anything else is accepted |
| AeIbanValidator.UngroupGrouped | src/main/java/com/pearldatadirect/ibanvalidator/validation/AeIbanValidator.java:67 | removing whitespace from the space-grouped printed form gives back the compact IBAN |
| AeIbanValidator.NormalizePrintedLowerCase | src/test/java/com/pearldatadirect/ibanvalidator/validation/AeIbanValidatorTest.java:56-58 | the lower-cased printed form normalises to the compact IBAN |
| AeIbanValidator.PrintedLowerCaseSameVerdict | src/test/java/com/pearldatadirect/ibanvalidator/validation/AeIbanValidatorTest.java:42-59 | the lower-cased printed form gets the same verdict as the compact form |
| AeIbanValidator.BuiltIbanAccepted | src/test/java/com/pearldatadirect/ibanvalidator/validation/AeIbanValidatorTest.java:42-59 | an IBAN built for a loaded and valid bank code is accepted, both compact and lower-cased in printed form |
| AeIbanValidator.BuiltIbanUnknownCode | src/test/java/com/pearldatadirect/ibanvalidator/validation/AeIbanValidatorTest.java:101-113 | an IBAN with correct check digits, built for an unloaded code, gives "Unknown UAE bank code" |
| AeIbanValidator.ForeignPrefixRejected | src/main/java/com/pearldatadirect/ibanvalidator/validation/AeIbanValidator.java:33-35 | an alphanumeric value starting with two upper-case letters other than "AE" gives "IBAN must start with AE", although the AE-only re-specification `IbanCheck.Validate` would report an unsupported country |
| AeIbanValidator.ForeignCharacterRejected | src/main/java/com/pearldatadirect/ibanvalidator/validation/AeIbanValidator.java:28-30 | a trimmed, whitespace-free, upper-case value holding a character outside [A-Z0-9] that `isBlank` does not skip gives "IBAN must be alphanumeric" |
| AeIbanValidator.WrongLengthRejected | src/main/java/com/pearldatadirect/ibanvalidator/validation/AeIbanValidator.java:36-38 | an alphanumeric value starting with "AE" whose length is not 23 gives the 23-character message |
| AeIbanValidator.BritishIbanRejected | src/test/java/com/pearldatadirect/ibanvalidator/validation/AeIbanValidatorTest.java:80-84 | "GB82WEST12345698765432" gives "IBAN must start with AE", although the AE-only re-specification `IbanCheck.Validate` would report an unsupported country |
| AeIbanValidator.HyphenatedRejected | src/test/java/com/pearldatadirect/ibanvalidator/validation/AeIbanValidatorTest.java:86-91 | "AE07-0331-2345-6789-0123-456" gives "IBAN must be alphanumeric" |
| AeIbanValidator.ShortIbanRejected | src/test/java/com/pearldatadirect/ibanvalidator/validation/AeIbanValidatorTest.java:93-98 | the 22-character "AE07033123456789012345" gives the 23-character message |
| IbanCheck.CharValue | src/main/java/com/pearldatadirect/ibanvalidator/validation/AeIbanValidator.java:41 | a character's MOD 97-10 value is below 36, and below 10 exactly for digits |
| IbanCheck.Mod97 | src/main/java/com/pearldatadirect/ibanvalidator/validation/AeIbanValidator.java:41 | the digit-by-digit remainder equals the remainder of the full number (letters read as 10 to 35) divided by 97 |
| IbanCheck.NumeralAppend | src/main/java/com/pearldatadirect/ibanvalidator/validation/AeIbanValidator.java:41 | the number spelt by p + q is the number spelt by p, shifted by q's weight, plus the number spelt by q |
| IbanCheck.HasAeLayout | src/main/java/com/pearldatadirect/ibanvalidator/validation/AeIbanValidator.java:33-41 | a value with the AE layout consists only of the characters [A-Z0-9] |
| IbanCheck.AeLayoutByCharacter | src/main/java/com/pearldatadirect/ibanvalidator/validation/AeIbanValidator.java:40-43 | the AE layout holds if and only if the value has 23 characters, starts with "AE" and has only digits after that |
| IbanCheck.Validate | src/main/java/com/pearldatadirect/ibanvalidator/validation/AeIbanValidator.java:40-48 | the library check passes if and only if the AE layout holds and the remainder is 1; it gives the check-digit failure if and only if the layout holds and the remainder is not 1; it gives the unsupported-country failure if and only if there are two upper-case letters other than "AE" |
| IbanCheck.DigitChangeChangesRemainder | src/main/java/com/pearldatadirect/ibanvalidator/validation/AeIbanValidator.java:41 | replacing one digit by another changes the remainder modulo 97 |
| IbanCheck.DigitChangeBreaksCheckDigits | src/main/java/com/pearldatadirect/ibanvalidator/validation/AeIbanValidator.java:44-45 | replacing one digit at positions 2 to 22 of a valid AE IBAN keeps the layout but breaks the check digits |
| IbanCheck.CheckDigitsFor | src/test/java/com/pearldatadirect/ibanvalidator/validation/AeIbanValidatorTest.java:47-51 | the computed check digits are two ASCII digits |
| IbanCheck.BuiltIbanPassesCheck | src/test/java/com/pearldatadirect/ibanvalidator/validation/AeIbanValidatorTest.java:47-51 | with the computed check digits, the rearranged number leaves remainder 1 |
| IbanCheck.BuildAeIban | src/test/java/com/pearldatadirect/ibanvalidator/validation/AeIbanValidatorTest.java:47-51 | an IBAN built from a bank code and an account number has the AE layout and valid check digits, and holds exactly that code and account |
| JavaText.IsBlank | src/main/java/com/pearldatadirect/ibanvalidator/validation/AeIbanValidator.java:21 | the empty string is blank, and a blank string holds no ASCII letter or digit |
| JavaText.Trim | src/main/java/com/pearldatadirect/ibanvalidator/registry/AeBankCodeRegistry.java:125 | the result has no character at or below the space at either end |
| JavaText.TrimKeepsMiddle | src/main/java/com/pearldatadirect/ibanvalidator/registry/AeBankCodeRegistry.java:125 | `trim` only shortens; every kept character comes from the input; the result is empty if and only if every character is at or below the space |
| JavaText.TrimOfTrimmed | src/main/java/com/pearldatadirect/ibanvalidator/registry/AeBankCodeRegistry.java:125 | `trim` leaves an already trimmed string unchanged |
| JavaText.TrimIdempotent | src/main/java/com/pearldatadirect/ibanvalidator/registry/AeBankCodeRegistry.java:125 | trimming twice gives the same as trimming once |
| JavaText.ToUpper | src/main/java/com/pearldatadirect/ibanvalidator/validation/AeIbanValidator.java:67 | upper-casing keeps the length and maps each character through the ASCII upper-case map |
| JavaText.ToLower | src/main/java/com/pearldatadirect/ibanvalidator/registry/AeBankCodeRegistry.java:59 | lower-casing keeps the length and maps each character through the ASCII lower-case map |
| JavaText.RemoveRegexWhitespace | src/main/java/com/pearldatadirect/ibanvalidator/validation/AeIbanValidator.java:67 | the result is no longer than the input and contains no `\s` character |
| JavaText.RemoveRegexWhitespaceKeeps | src/main/java/com/pearldatadirect/ibanvalidator/validation/AeIbanValidator.java:67 | every character of the result occurs in the input |
| JavaText.RemoveRegexWhitespaceKeepsEnds | src/main/java/com/pearldatadirect/ibanvalidator/validation/AeIbanValidator.java:67 | input without whitespace is returned unchanged, and a non-whitespace first or last character stays in place |
| JavaText.RemoveRegexWhitespaceAppend | src/main/java/com/pearldatadirect/ibanvalidator/validation/AeIbanValidator.java:67 | removing whitespace distributes over concatenation |
| JavaText.Split | src/main/java/com/pearldatadirect/ibanvalidator/registry/AeBankCodeRegistry.java:99 | splitting always yields at least one field |
| JavaText.SplitJoin | src/main/java/com/pearldatadirect/ibanvalidator/registry/AeBankCodeRegistry.java:99 | no field contains the separator, and joining the fields with it gives back the line |
| JavaText.EqualsIgnoreCase | src/main/java/com/pearldatadirect/ibanvalidator/registry/AeBankCodeRegistry.java:37 | two strings are equal ignoring case if and only if their upper-case forms are equal |
| JavaText.Contains | src/main/java/com/pearldatadirect/ibanvalidator/registry/AeBankCodeRegistry.java:74 | every string contains the empty string, and a string contains only needles no longer than itself |
| JavaText.LexLeTotal | src/main/java/com/pearldatadirect/ibanvalidator/web/BanksController.java:60 | any two strings are comparable under `compareTo` order |
| JavaText.LexLeTransitive | src/main/java/com/pearldatadirect/ibanvalidator/web/BanksController.java:60 | `compareTo` order is transitive |
| JavaText.LexLeAntisymmetric | src/main/java/com/pearldatadirect/ibanvalidator/web/BanksController.java:60 | strings ordered both ways are equal |
| BankRegistry.Safe | src/main/java/com/pearldatadirect/ibanvalidator/registry/AeBankCodeRegistry.java:124-126 | null gives "", and the result is always trimmed; an already trimmed value is returned as is |
| BankRegistry.IsBankCode | src/main/java/com/pearldatadirect/ibanvalidator/registry/AeBankCodeRegistry.java:103 | a code matching `^\d{3}$` needs no trimming and is not blank |
| BankRegistry.ParseRow | src/main/java/com/pearldatadirect/ibanvalidator/registry/AeBankCodeRegistry.java:96-113 | a blank line gives no row; a kept row comes from a line of at least 7 fields and holds a 3-digit code and trimmed fields |
| BankRegistry.ParseRowKeeps | src/main/java/com/pearldatadirect/ibanvalidator/registry/AeBankCodeRegistry.java:96-113 | a line is kept if and only if it is not blank, has at least 7 comma fields, and its trimmed first field is 3 ASCII digits; the record holds the 7 trimmed fields |
| BankRegistry.RowAt | src/main/java/com/pearldatadirect/ibanvalidator/registry/AeBankCodeRegistry.java:90-95 | the first line (the header) yields no row; every later line yields what the row parser makes of it |
| BankRegistry.KeptCodesStep | src/main/java/com/pearldatadirect/ibanvalidator/registry/AeBankCodeRegistry.java:115 | one more row adds its code, if kept; it is the first row for its code if and only if that code was not kept before |
| BankRegistry.PutIfAbsent | src/main/java/com/pearldatadirect/ibanvalidator/registry/AeBankCodeRegistry.java:115 | a dropped row or an already present code leaves the map unchanged; a kept row with a new code adds exactly that code, stored with that row; no stored entry changes |
| BankRegistry.Load | src/main/java/com/pearldatadirect/ibanvalidator/registry/AeBankCodeRegistry.java:89-116 | the loop leaves exactly the map that skipping the header line and then applying putIfAbsent to what the row parser makes of each later line builds from the empty map |
| BankRegistry.LoadMapKeys | src/main/java/com/pearldatadirect/ibanvalidator/registry/AeBankCodeRegistry.java:115 | after n rows the map's keys are exactly the codes of the kept rows among them |
| BankRegistry.LoadMapFirstRows | src/main/java/com/pearldatadirect/ibanvalidator/registry/AeBankCodeRegistry.java:115 | after n rows every row that is the first kept one for its code is stored under that code |
| BankRegistry.LoadMapCodes | src/main/java/com/pearldatadirect/ibanvalidator/registry/AeBankCodeRegistry.java:102-115 | when every kept row carries a 3-digit code, every key is a 3-digit code and equals its record's code |
| BankRegistry.LoadedMap | src/main/java/com/pearldatadirect/ibanvalidator/registry/AeBankCodeRegistry.java:89-116 | after loading, the keys are exactly the codes of the kept data lines; each code maps to the first kept row for it; every key is 3 digits and equals its record's code |
| BankRegistry.Registry.constructor | src/main/java/com/pearldatadirect/ibanvalidator/registry/AeBankCodeRegistry.java:25-28 | the flag is stored; the map is what `Load` builds, with first rows winning; `Size()` is the number of distinct kept codes |
| BankRegistry.Registry.IsValid | src/main/java/com/pearldatadirect/ibanvalidator/registry/AeBankCodeRegistry.java:33-38 | false for an unloaded code; without live-only, true if and only if loaded; with live-only, true if and only if loaded and the trimmed status equals "Live" ignoring case |
| BankRegistry.Registry.Get | src/main/java/com/pearldatadirect/ibanvalidator/registry/AeBankCodeRegistry.java:43-45 | empty if and only if the code is not loaded; otherwise the stored record, whatever its status, with that code |
| BankRegistry.Registry.Size | src/main/java/com/pearldatadirect/ibanvalidator/registry/AeBankCodeRegistry.java:47-49 | the number of loaded codes |
| BankRegistry.IsLive | src/main/java/com/pearldatadirect/ibanvalidator/registry/AeBankCodeRegistry.java:37 | a status is Live if and only if, once trimmed, it upper-cases to "LIVE" |
| BankRegistry.Registry.Matches | src/main/java/com/pearldatadirect/ibanvalidator/registry/AeBankCodeRegistry.java:64-77 | with neither q nor bic only the live-only policy decides; a BIC filter matches only a stored BIC of its own length; a name filter is no longer than participant, space and short name together |
| BankRegistry.Registry.MatchingCodes | src/main/java/com/pearldatadirect/ibanvalidator/registry/AeBankCodeRegistry.java:62-77 | the codes kept are exactly those in the order whose records pass all three filters, with no repeats when the order has none |
| BankRegistry.Registry.Search | src/main/java/com/pearldatadirect/ibanvalidator/registry/AeBankCodeRegistry.java:58-80 | fails if and only if the limit is negative; otherwise returns at most `limit` loaded records, each passing the live, BIC and name filters, with no repeats, numbering min(limit, number of matches), and all matches when they fit |
| BanksController.IsShortNumber | src/main/java/com/pearldatadirect/ibanvalidator/web/BanksController.java:67 | a value matching `^\d{1,3}$` needs no trimming and is not blank |
| BanksController.ParseDigits | src/main/java/com/pearldatadirect/ibanvalidator/web/BanksController.java:70 | the value of n ASCII digits is below 10 to the power n |
| BanksController.Format3 | src/main/java/com/pearldatadirect/ibanvalidator/web/BanksController.java:70 | `%03d` of a number below 1000 is three ASCII digits |
| BanksController.ParseFormat3 | src/main/java/com/pearldatadirect/ibanvalidator/web/BanksController.java:70 | parsing the three-digit rendering gives back the number |
| BanksController.PadShortNumber | src/main/java/com/pearldatadirect/ibanvalidator/web/BanksController.java:67-70 | formatting the value of one to three digits gives those digits with zeros on the left, three characters in all |
| BanksController.NormalizeCode | src/main/java/com/pearldatadirect/ibanvalidator/web/BanksController.java:64-71 | null gives ""; a trimmed value of 1 to 3 digits becomes a 3-digit code, zero-padded on the left, with the same numeric value; any other value is returned trimmed |
| BanksController.NormalizeCodeIdempotent | src/main/java/com/pearldatadirect/ibanvalidator/web/BanksController.java:64-71 | normalising a normalised code changes nothing |
| BanksController.NormalizeCodeOfBankCode | src/main/java/com/pearldatadirect/ibanvalidator/web/BanksController.java:64-71 | a 3-digit code, with or without surrounding blanks, normalises to itself |
| BanksController.ShortCodeIsPadded | src/test/java/com/pearldatadirect/ibanvalidator/web/BanksControllerTest.java:28-37 | "33" is looked up as "033" and found if and only if the registry holds "033" |
| BanksController.ClampLimit | src/main/java/com/pearldatadirect/ibanvalidator/web/BanksController.java:57 | the limit lies in [1, 200]; it is unchanged when already in range, and otherwise becomes the nearer bound |
| BanksController.ClampLimitIdempotent | src/main/java/com/pearldatadirect/ibanvalidator/web/BanksController.java:57 | clamping twice gives the same as clamping once |
| BanksController.GetByCode | src/main/java/com/pearldatadirect/ibanvalidator/web/BanksController.java:32-38 | found if and only if the normalised code is loaded, and then the stored record for it; otherwise not found |
| BanksController.GetByNormalizedCode | src/main/java/com/pearldatadirect/ibanvalidator/web/BanksController.java:32-38 | a code and its normal form find the same record |
| BanksController.SortByCode | src/main/java/com/pearldatadirect/ibanvalidator/web/BanksController.java:60 | the array ends up sorted ascending by bank code, and is a permutation of its old contents |
| BanksController.SortedIsUnique | src/main/java/com/pearldatadirect/ibanvalidator/web/BanksController.java:60 | two sorted listings of the same records, with distinct codes, are equal |
| BanksController.Search | src/main/java/com/pearldatadirect/ibanvalidator/web/BanksController.java:51-62 | an absent limit reads as 50 (so at most 50 records come back); the registry is called with the clamped limit and cannot fail; the response is sorted by code, is a permutation of the registry's result, has at most 200 records and has no two records with one code |
| BanksController.StoredPermutationDistinct | src/main/java/com/pearldatadirect/ibanvalidator/web/BanksController.java:60 | a permutation of stored records with no repeats has the same length and no two records with one code |
| BanksController.FoundExactly | src/main/java/com/pearldatadirect/ibanvalidator/web/BanksController.java:57-60 | when every match fits within the limit, a record is in the registry's result if and only if it is stored under its code and passes the three filters |
| BanksController.SearchResponseIgnoresOrder | src/main/java/com/pearldatadirect/ibanvalidator/web/BanksController.java:57-60 | when every match fits within the clamped limit, the sorted response is the same whatever order the registry enumerates its codes in |

## Left out

- Spring wiring is not modelled: request mappings, `ResponseEntity`, the HTTP status of the not-found exception, the exception handler and the OpenAPI configuration. They are transport code. The not-found case is the `BankCodeNotFound` error value.
- Bean-validation dispatch (the `AeIban` annotation) is not modelled, and neither is the `ConstraintValidatorContext`. The validator is a function that returns an `Outcome`.
- The IBAN library is replaced by its re-specification in `IbanCheck`. Only the AE entry of its country table is modelled, so every other two-letter country reads as unsupported. The order of its internal checks is inferred, not taken from its code.
- IbanCheck.Validate: the layout check follows the AE registry entry only; the library's generic BBAN-structure parsing for other countries is not modelled.
- Reading the CSV resource from the classpath is not modelled, and neither is the `IllegalStateException` raised on a read failure. The loader receives the file's lines.
- BankRegistry.Registry.Search: the HashMap's iteration order is a parameter, so when more records match than `limit` allows, the contract does not say which of them are returned; it fixes only their number and properties.
- AeIbanValidator.Normalize: upper-casing is ASCII only. Java's locale-dependent mappings of other letters are not modelled, and neither are `toLowerCase(Locale.ROOT)` on non-ASCII text in search or the case-insensitive comparisons.
- BanksController.Format3: `String.format("%03d", …)` uses the default locale's zero digit; the model assumes a locale whose digits are the ASCII digits, so in a locale with other digits the real endpoint pads with non-ASCII digits and misses the lookup, which the model does not show.
- BanksController.SortByCode: the sort is an insertion sort, not Java's merge sort. Both are stable, and the registry never returns two records with one code, so the result is the same.
- Java `int` is unbounded here. `ClampLimit` keeps every value in range, and the parsed codes have at most three digits, so no overflow is possible in the modelled operations.
- `BankDetailsService`, `BankDetailsController` and `AddBankDetailsRequest` are not part of this model: they are a persistence stub and request plumbing around the validator.
