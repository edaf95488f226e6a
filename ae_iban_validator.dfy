/** The UAE IBAN constraint validator: a value is normalised (trimmed, upper
    cased, stripped of whitespace) and then passes a fixed chain of guards;
    the first guard that fails decides the single reason of the rejection.
    The violation the Java code writes into its validation context is the
    Reject outcome here. */
module AeIbanValidator {
  import opened Wrappers
  import opened JavaText
  import IbanCheck
  import opened BankRegistry

  /** The nine messages of the validator, of which eight are reachable: the
      unsupported-country failure cannot follow the AE prefix guard. */
  datatype Reason =
    | Required
    | NotAlphanumeric
    | NotAePrefix
    | WrongLength
    | InvalidFormat
    | InvalidCheckDigits
    | UnsupportedCountry
    | UnknownBankCode
    | InactiveBankCode

  datatype Outcome = Accept | Reject(reason: Reason)

  /** The message text the validator writes for each reason. */
  function Message(r: Reason): (m: string)
    ensures |m| > 0 && IsAsciiUpper(m[0])
  {
    match r
    case Required => "IBAN is required"
    case NotAlphanumeric => "IBAN must be alphanumeric"
    case NotAePrefix => "IBAN must start with AE"
    case WrongLength => "UAE (AE) IBAN must be exactly 23 characters"
    case InvalidFormat => "Invalid IBAN format"
    case InvalidCheckDigits => "Invalid IBAN check digits"
    case UnsupportedCountry => "Unsupported IBAN country"
    case UnknownBankCode => "Unknown UAE bank code"
    case InactiveBankCode => "Inactive UAE bank code"
  }

  /** The lengths of the nine messages. */
  lemma MessageLengths()
    ensures |Message(Required)| == 16 && |Message(NotAlphanumeric)| == 25
    ensures |Message(NotAePrefix)| == 23 && |Message(WrongLength)| == 43
    ensures |Message(InvalidFormat)| == 19 && |Message(InvalidCheckDigits)| == 25
    ensures |Message(UnsupportedCountry)| == 24 && |Message(UnknownBankCode)| == 21
    ensures |Message(InactiveBankCode)| == 22
  {
  }

  /** The reasons are told apart by their messages: only "IBAN must be
      alphanumeric" and "Invalid IBAN check digits" share a length, and their
      second characters differ. */
  lemma MessagesDiffer(a: Reason, b: Reason)
    requires a != b
    ensures Message(a) != Message(b)
  {
    MessageLengths();
    if {a, b} == {NotAlphanumeric, InvalidCheckDigits} {
      assert Message(NotAlphanumeric)[1] != Message(InvalidCheckDigits)[1];
    }
  }

  const AePrefix: string := "AE"
  const IbanLength: nat := 23

  /** normalize: trim, upper-case, then drop every whitespace run. The
      result holds no whitespace, no lower-case ASCII letter, and has nothing
      trim would remove at either end. */
  function Normalize(input: string): (r: string)
    ensures forall i :: 0 <= i < |r| ==> !IsRegexWhitespace(r[i]) && !IsAsciiLower(r[i])
    ensures IsTrimmed(r)
  {
    var t := Trim(input);
    UpperKeepsTrimmed(t);
    UpperLeavesNoLower(t);
    RemoveRegexWhitespaceKeepsNoLower(ToUpper(t));
    RemoveRegexWhitespace(ToUpper(t))
  }

  /** Upper-casing a trimmed string and dropping its whitespace leaves it
      trimmed. */
  lemma UpperKeepsTrimmed(t: string)
    requires IsTrimmed(t)
    ensures IsTrimmed(RemoveRegexWhitespace(ToUpper(t)))
  {
    var u := ToUpper(t);
    if |u| > 0 {
      assert u[0] == UpperChar(t[0]) && u[|u| - 1] == UpperChar(t[|t| - 1]);
      assert !IsRegexWhitespace(u[0]) && !IsRegexWhitespace(u[|u| - 1]);
      RemoveRegexWhitespaceKeepsEnds(u);
    }
  }

  lemma UpperLeavesNoLower(t: string)
    ensures forall i :: 0 <= i < |ToUpper(t)| ==> !IsAsciiLower(ToUpper(t)[i])
  {
  }

  lemma RemoveRegexWhitespaceKeepsNoLower(u: string)
    requires forall i :: 0 <= i < |u| ==> !IsAsciiLower(u[i])
    ensures forall i :: 0 <= i < |RemoveRegexWhitespace(u)| ==> !IsAsciiLower(RemoveRegexWhitespace(u)[i])
  {
    var r := RemoveRegexWhitespace(u);
    RemoveRegexWhitespaceKeeps(u);
    forall i | 0 <= i < |r| ensures !IsAsciiLower(r[i]) {
      var j :| 0 <= j < |u| && u[j] == r[i];
    }
  }

  /** iban.matches("^[A-Z0-9]+$"). */
  predicate IsAlphanumeric(s: string)
    ensures IsAlphanumeric(s) ==>
              && |s| > 0 && !IsJavaWhitespace(s[0]) && !IsBlank(s)
              && forall i :: 0 <= i < |s| ==> !IsRegexWhitespace(s[i]) && !IsAsciiLower(s[i])
  {
    |s| > 0 && IbanCheck.IsIbanText(s)
  }

  /** The 3-digit bank code at positions 4..6. */
  function BankCode(iban: string): (code: string)
    requires |iban| >= 7
    ensures |code| == 3
  {
    iban[4..7]
  }

  /** The reason the validator reports for each failure of the library check. */
  function CheckReason(f: IbanCheck.CheckFailure): (r: Reason)
    ensures Stage(r) == 5
  {
    match f
    case FormatError => InvalidFormat
    case InvalidCheckDigit => InvalidCheckDigits
    case UnsupportedCountry => UnsupportedCountry
  }

  /** The guards after the first one, applied to the normalised value:
      alphanumeric, AE prefix, length 23, structure and check digits, known
      bank code, bank code valid under the registry's policy. */
  function CheckNormalized(iban: string, registry: Registry): (o: Outcome)
    ensures o != Reject(Required) && o != Reject(UnsupportedCountry)
    ensures o == Accept ==>
              && |iban| == IbanLength && iban[..2] == AePrefix
              && IbanCheck.HasAeLayout(iban) && IbanCheck.HasValidCheckDigits(iban)
              && registry.Get(BankCode(iban)).Some? && registry.IsValid(BankCode(iban))
  {
    if !IsAlphanumeric(iban) then Reject(NotAlphanumeric)
    else if !(AePrefix <= iban) then Reject(NotAePrefix)
    else if |iban| != IbanLength then Reject(WrongLength)
    else
      var check := IbanCheck.Validate(iban);
      assert iban[..2] == AePrefix;
      if check.Some? then Reject(CheckReason(check.value))
      else if registry.Get(BankCode(iban)).None? then Reject(UnknownBankCode)
      else if !registry.IsValid(BankCode(iban)) then Reject(InactiveBankCode)
      else Accept
  }

  /** isValid: a missing or blank value is required; any other value is
      normalised and passes the remaining guards. */
  function Validate(value: Option<string>, registry: Registry): (o: Outcome)
    ensures o == Reject(Required) <==> value.None? || IsBlank(value.value)
    ensures o != Reject(UnsupportedCountry)
  {
    if value.None? || IsBlank(value.value) then Reject(Required)
    else CheckNormalized(Normalize(value.value), registry)
  }

  // ---------------------------------------------------------------------
  // Normalisation

  /** A string that is already trimmed, upper case and free of whitespace
      is its own normal form. */
  lemma NormalizeOfClean(s: string)
    requires IsTrimmed(s)
    requires forall i :: 0 <= i < |s| ==> !IsRegexWhitespace(s[i]) && !IsAsciiLower(s[i])
    ensures Normalize(s) == s
  {
    TrimOfTrimmed(s);
    assert ToUpper(s) == s;
    RemoveRegexWhitespaceKeepsEnds(s);
  }

  /** An IBAN-alphabet string is its own normal form and is not blank. */
  lemma NormalizeOfIbanText(s: string)
    requires IsAlphanumeric(s)
    ensures Normalize(s) == s && !IsBlank(s)
  {
    assert forall i :: 0 <= i < |s| ==> IbanCheck.IsIbanChar(s[i]);
    NormalizeOfClean(s);
    assert !IsJavaWhitespace(s[0]);
  }

  /** Normalising twice is normalising once. */
  lemma NormalizeIdempotent(s: string)
    ensures Normalize(Normalize(s)) == Normalize(s)
  {
    NormalizeOfClean(Normalize(s));
  }

  /** Every character of the normal form is the upper-case image of a
      character of the input. */
  lemma NormalizeKeepsCharacters(s: string)
    ensures forall k :: 0 <= k < |Normalize(s)| ==>
              exists i :: 0 <= i < |s| && Normalize(s)[k] == UpperChar(s[i])
  {
    var t := Trim(s);
    var u := ToUpper(t);
    var r := Normalize(s);
    TrimKeepsMiddle(s);
    RemoveRegexWhitespaceKeeps(u);
    forall k | 0 <= k < |r| ensures exists i :: 0 <= i < |s| && r[k] == UpperChar(s[i]) {
      var j :| 0 <= j < |u| && u[j] == r[k];
      var i :| 0 <= i < |s| && s[i] == t[j];
      assert r[k] == UpperChar(s[i]);
    }
  }

  /** A blank input has a blank normal form. */
  lemma NormalizeOfBlank(s: string)
    requires IsBlank(s)
    ensures IsBlank(Normalize(s))
  {
    NormalizeKeepsCharacters(s);
    forall k | 0 <= k < |Normalize(s)| ensures IsJavaWhitespace(Normalize(s)[k]) {
      var i :| 0 <= i < |s| && Normalize(s)[k] == UpperChar(s[i]);
    }
  }

  /** Validating the normal form gives the verdict of validating the input,
      except for the inputs that are not blank but whose normal form is:
      the input is then rejected by a later guard, its normal form as
      missing. */
  lemma ValidateOfNormalForm(v: string, registry: Registry)
    ensures (Validate(Some(Normalize(v)), registry) == Validate(Some(v), registry))
              <==> !(IsBlank(Normalize(v)) && !IsBlank(v))
  {
    if IsBlank(v) {
      NormalizeOfBlank(v);
    } else if !IsBlank(Normalize(v)) {
      NormalizeIdempotent(v);
    }
  }

  /** An input of one NUL character is not blank, yet trimming removes it. */
  lemma NormalFormMayBeBlank(registry: Registry)
    ensures Validate(Some("\U{0}"), registry) == Reject(NotAlphanumeric)
    ensures Validate(Some(Normalize("\U{0}")), registry) == Reject(Required)
  {
    assert !IsJavaWhitespace('\U{0}');
    assert TrimStart("\U{0}") == TrimStart([]);
    assert Normalize("\U{0}") == [];
  }

  // ---------------------------------------------------------------------
  // Guard order

  /** The input the guards after the first one look at. */
  function NormalInput(value: Option<string>): string {
    if value.None? then "" else Normalize(value.value)
  }

  /** Guard k (1 to 7) of the chain fails on the value, each stated on its
      own: 1 required, 2 alphanumeric, 3 AE prefix, 4 length, 5 structure and
      check digits, 6 known bank code, 7 bank code valid by policy. */
  predicate GuardFails(value: Option<string>, registry: Registry, k: nat)
    requires 1 <= k <= 7
  {
    var iban := NormalInput(value);
    match k
    case 1 => value.None? || IsBlank(value.value)
    case 2 => !IsAlphanumeric(iban)
    case 3 => !(AePrefix <= iban)
    case 4 => |iban| != IbanLength
    case 5 => !(IbanCheck.HasAeLayout(iban) && IbanCheck.HasValidCheckDigits(iban))
    case 6 => |iban| < 7 || BankCode(iban) !in registry.byCode
    case _ => |iban| < 7 || !registry.IsValid(BankCode(iban))
  }

  /** The position of each reason in the chain. */
  function Stage(r: Reason): (k: nat)
    ensures 1 <= k <= 7
  {
    match r
    case Required => 1
    case NotAlphanumeric => 2
    case NotAePrefix => 3
    case WrongLength => 4
    case InvalidFormat => 5
    case InvalidCheckDigits => 5
    case UnsupportedCountry => 5
    case UnknownBankCode => 6
    case InactiveBankCode => 7
  }

  /** The structure guard, given the three guards before it: the library
      check fails exactly when the layout or the check digits do, and then
      with the check-digit kind exactly when the layout holds. */
  lemma StructureGuard(iban: string)
    requires IsAlphanumeric(iban) && AePrefix <= iban && |iban| == IbanLength
    ensures IbanCheck.Validate(iban).None? <==>
              IbanCheck.HasAeLayout(iban) && IbanCheck.HasValidCheckDigits(iban)
    ensures IbanCheck.Validate(iban) != Some(IbanCheck.UnsupportedCountry)
  {
    assert iban[..2] == AePrefix;
  }

  /** A value is accepted exactly when no guard fails; a rejected value
      carries the reason of the first guard that fails, and of the structure
      guard's reasons, the check-digit one exactly when the layout holds. */
  lemma FirstFailingGuardWins(value: Option<string>, registry: Registry)
    ensures Validate(value, registry) == Accept <==>
              forall k :: 1 <= k <= 7 ==> !GuardFails(value, registry, k)
    ensures Validate(value, registry).Reject? ==>
              var k := Stage(Validate(value, registry).reason);
              && GuardFails(value, registry, k)
              && forall j :: 1 <= j < k ==> !GuardFails(value, registry, j)
    ensures Validate(value, registry) == Reject(InvalidCheckDigits) <==>
              && (forall j :: 1 <= j < 5 ==> !GuardFails(value, registry, j))
              && IbanCheck.HasAeLayout(NormalInput(value))
              && !IbanCheck.HasValidCheckDigits(NormalInput(value))
  {
    AcceptIffNoGuardFails(value, registry);
    RejectAtFirstFailingGuard(value, registry);
    CheckDigitsReasonExactly(value, registry);
  }

  lemma AcceptIffNoGuardFails(value: Option<string>, registry: Registry)
    ensures Validate(value, registry) == Accept <==>
              forall k :: 1 <= k <= 7 ==> !GuardFails(value, registry, k)
  {
    var iban := NormalInput(value);
    if IsAlphanumeric(iban) && AePrefix <= iban && |iban| == IbanLength {
      StructureGuard(iban);
    }
    if Validate(value, registry) == Accept {
      forall k | 1 <= k <= 7 ensures !GuardFails(value, registry, k) {
        assert |iban| >= 7;
      }
    }
    if forall k :: 1 <= k <= 7 ==> !GuardFails(value, registry, k) {
      assert !GuardFails(value, registry, 1) && !GuardFails(value, registry, 2);
      assert !GuardFails(value, registry, 3) && !GuardFails(value, registry, 4);
      assert !GuardFails(value, registry, 5) && !GuardFails(value, registry, 6);
      assert !GuardFails(value, registry, 7);
    }
  }

  lemma RejectAtFirstFailingGuard(value: Option<string>, registry: Registry)
    ensures Validate(value, registry).Reject? ==>
              var k := Stage(Validate(value, registry).reason);
              && GuardFails(value, registry, k)
              && forall j :: 1 <= j < k ==> !GuardFails(value, registry, j)
  {
    var iban := NormalInput(value);
    var o := Validate(value, registry);
    if value.None? || IsBlank(value.value) {
      assert o == Reject(Required);
    } else {
      assert o == CheckNormalized(iban, registry);
      assert !GuardFails(value, registry, 1);
      if !IsAlphanumeric(iban) {
        assert o == Reject(NotAlphanumeric);
      } else if !(AePrefix <= iban) {
        assert o == Reject(NotAePrefix);
        assert !GuardFails(value, registry, 2);
      } else if |iban| != IbanLength {
        assert o == Reject(WrongLength);
        assert !GuardFails(value, registry, 2) && !GuardFails(value, registry, 3);
      } else {
        StructureGuard(iban);
        assert !GuardFails(value, registry, 2) && !GuardFails(value, registry, 3);
        assert !GuardFails(value, registry, 4);
        if o.Reject? && Stage(o.reason) >= 6 {
          assert !GuardFails(value, registry, 5);
        }
        if o == Reject(InactiveBankCode) {
          assert !GuardFails(value, registry, 6);
        }
      }
    }
  }

  lemma CheckDigitsReasonExactly(value: Option<string>, registry: Registry)
    ensures Validate(value, registry) == Reject(InvalidCheckDigits) <==>
              && (forall j :: 1 <= j < 5 ==> !GuardFails(value, registry, j))
              && IbanCheck.HasAeLayout(NormalInput(value))
              && !IbanCheck.HasValidCheckDigits(NormalInput(value))
  {
    var iban := NormalInput(value);
    var o := Validate(value, registry);
    if IsAlphanumeric(iban) && AePrefix <= iban && |iban| == IbanLength {
      StructureGuard(iban);
    }
    if o == Reject(InvalidCheckDigits) {
      assert !(value.None? || IsBlank(value.value));
      assert o == CheckNormalized(iban, registry);
      assert !GuardFails(value, registry, 1) && !GuardFails(value, registry, 2);
      assert !GuardFails(value, registry, 3) && !GuardFails(value, registry, 4);
    }
    if forall j :: 1 <= j < 5 ==> !GuardFails(value, registry, j) {
      assert !GuardFails(value, registry, 1) && !GuardFails(value, registry, 2);
      assert !GuardFails(value, registry, 3) && !GuardFails(value, registry, 4);
    }
  }

  /** Acceptance, stated without the guards that the layout already implies:
      the value is present, its normal form has the AE layout and valid check
      digits, and its bank code is loaded and valid under the policy. */
  lemma AcceptedExactly(value: Option<string>, registry: Registry)
    ensures Validate(value, registry) == Accept <==>
              && value.Some?
              && var iban := Normalize(value.value);
              && IbanCheck.HasAeLayout(iban) && IbanCheck.HasValidCheckDigits(iban)
              && BankCode(iban) in registry.byCode
              && registry.IsValid(BankCode(iban))
  {
    if value.Some? {
      var iban := Normalize(value.value);
      if IbanCheck.HasAeLayout(iban) {
        IbanCheck.LayoutIsIbanText(iban);
        assert iban[..2] == AePrefix;
        StructureGuard(iban);
        if IsBlank(value.value) {
          NormalizeOfBlank(value.value);
        }
      }
    }
  }

  // ---------------------------------------------------------------------
  // Consequences for particular inputs

  /** Replacing one digit of an IBAN that passes the structure check, check
      digits or BBAN, gives the check-digit rejection. */
  lemma OneDigitChangeRejected(s: string, k: nat, d: char, registry: Registry)
    requires IbanCheck.HasAeLayout(s) && IbanCheck.HasValidCheckDigits(s)
    requires 2 <= k < |s| && IsAsciiDigit(d) && d != s[k]
    ensures Validate(Some(s[k := d]), registry) == Reject(InvalidCheckDigits)
  {
    var t := s[k := d];
    IbanCheck.DigitChangeBreaksCheckDigits(s, k, d);
    IbanCheck.LayoutIsIbanText(t);
    NormalizeOfIbanText(t);
    assert t[..2] == AePrefix;
    StructureGuard(t);
  }

  /** With a valid structure and checksum, the bank code alone decides: an
      unloaded code is unknown, a loaded one that the policy refuses (not
      Live while live-only is set) is inactive, any other is accepted. */
  lemma BankCodeDecides(value: Option<string>, registry: Registry)
    requires value.Some?
    requires IbanCheck.HasAeLayout(Normalize(value.value))
    requires IbanCheck.HasValidCheckDigits(Normalize(value.value))
    ensures var code := BankCode(Normalize(value.value));
            Validate(value, registry) ==
              if code !in registry.byCode then Reject(UnknownBankCode)
              else if registry.liveOnly && !IsLive(registry.byCode[code].status) then Reject(InactiveBankCode)
              else Accept
  {
    var iban := Normalize(value.value);
    IbanCheck.LayoutIsIbanText(iban);
    assert iban[..2] == AePrefix;
    StructureGuard(iban);
    if IsBlank(value.value) {
      NormalizeOfBlank(value.value);
    }
  }

  // ---------------------------------------------------------------------
  // The printed form

  /** The IBAN library's printed form: groups of four characters separated
      by single spaces. */
  function Grouped(s: string): (r: string)
    ensures |s| > 0 ==> |r| > 0 && r[0] == s[0] && r[|r| - 1] == s[|s| - 1]
    decreases |s|
  {
    if |s| <= 4 then s else s[..4] + " " + Grouped(s[4..])
  }

  /** The printed form holds the characters of s and spaces. */
  lemma {:induction false} GroupedCharacters(s: string)
    requires IbanCheck.IsIbanText(s)
    ensures forall i :: 0 <= i < |Grouped(s)| ==> Grouped(s)[i] == ' ' || IbanCheck.IsIbanChar(Grouped(s)[i])
    decreases |s|
  {
    if |s| > 4 {
      GroupedCharacters(s[4..]);
      var g := Grouped(s[4..]);
      assert Grouped(s) == s[..4] + " " + g;
      forall i | 0 <= i < |Grouped(s)| ensures Grouped(s)[i] == ' ' || IbanCheck.IsIbanChar(Grouped(s)[i]) {
        if i < 4 {
          assert Grouped(s)[i] == s[i];
        } else if i > 4 {
          assert Grouped(s)[i] == g[i - 5];
        }
      }
    }
  }

  /** IBAN text holds no whitespace to drop. */
  lemma IbanTextHasNoWhitespace(s: string)
    requires IbanCheck.IsIbanText(s)
    ensures RemoveRegexWhitespace(s) == s
  {
    assert forall i :: 0 <= i < |s| ==> IbanCheck.IsIbanChar(s[i]);
    RemoveRegexWhitespaceKeepsEnds(s);
  }

  /** Dropping the spaces of the printed form gives the compact form back. */
  lemma {:induction false} UngroupGrouped(s: string)
    requires IbanCheck.IsIbanText(s)
    ensures RemoveRegexWhitespace(Grouped(s)) == s
    decreases |s|
  {
    if |s| <= 4 {
      IbanTextHasNoWhitespace(s);
    } else {
      var a, b := s[..4], s[4..];
      assert a + b == s;
      var g := Grouped(b);
      assert Grouped(s) == a + (" " + g);
      assert IbanCheck.IsIbanText(a) && IbanCheck.IsIbanText(b);
      UngroupGrouped(b);
      RemoveRegexWhitespaceAppend(a, " " + g);
      RemoveRegexWhitespaceAppend(" ", g);
      IbanTextHasNoWhitespace(a);
      assert RemoveRegexWhitespace(" ") == [];
      assert RemoveRegexWhitespace(" " + g) == b by {
        assert [] + b == b;
      }
      assert RemoveRegexWhitespace(Grouped(s)) == a + b;
    }
  }

  /** Upper-casing the lower-cased printed form gives the printed form. */
  lemma UpperOfLowerPrinted(s: string)
    requires IbanCheck.IsIbanText(s)
    ensures ToUpper(ToLower(Grouped(s))) == Grouped(s)
  {
    var g := Grouped(s);
    GroupedCharacters(s);
    assert forall i :: 0 <= i < |g| ==> UpperChar(LowerChar(g[i])) == g[i];
  }

  /** The printed form in lower case normalises to the compact form. */
  lemma NormalizePrintedLowerCase(s: string)
    requires IbanCheck.IsIbanText(s)
    ensures Normalize(ToLower(Grouped(s))) == s
  {
    var g := Grouped(s);
    var x := ToLower(g);
    if s == [] {
      assert x == [];
      assert Normalize(x) == RemoveRegexWhitespace([]);
    } else {
      assert IbanCheck.IsIbanChar(s[0]) && IbanCheck.IsIbanChar(s[|s| - 1]);
      assert x[0] == LowerChar(s[0]) && x[|x| - 1] == LowerChar(s[|s| - 1]);
      TrimOfTrimmed(x);
      UpperOfLowerPrinted(s);
      UngroupGrouped(s);
      assert Normalize(x) == RemoveRegexWhitespace(ToUpper(x));
    }
  }

  /** The printed form in lower case gets the verdict of the compact form. */
  lemma PrintedLowerCaseSameVerdict(s: string, registry: Registry)
    requires IbanCheck.IsIbanText(s)
    ensures Validate(Some(ToLower(Grouped(s))), registry) == Validate(Some(s), registry)
  {
    var x := ToLower(Grouped(s));
    NormalizePrintedLowerCase(s);
    if s != [] {
      NormalizeOfIbanText(s);
      assert IbanCheck.IsIbanChar(s[0]);
      assert x[0] == LowerChar(s[0]);
      assert !IsJavaWhitespace(x[0]);
    } else {
      assert x == s;
    }
  }

  // ---------------------------------------------------------------------
  // The scenarios of the validator's unit tests

  /** An IBAN built for a bank code the registry holds and accepts is
      accepted, both compact and printed in lower case. */
  lemma BuiltIbanAccepted(bankCode: string, account: string, registry: Registry)
    requires |bankCode| == IbanCheck.AeBankCodeLength && IbanCheck.AllDigits(bankCode)
    requires |account| == IbanCheck.AeAccountNumberLength && IbanCheck.AllDigits(account)
    requires bankCode in registry.byCode && registry.IsValid(bankCode)
    ensures Validate(Some(IbanCheck.BuildAeIban(bankCode, account)), registry) == Accept
    ensures Validate(Some(ToLower(Grouped(IbanCheck.BuildAeIban(bankCode, account)))), registry) == Accept
  {
    var iban := IbanCheck.BuildAeIban(bankCode, account);
    IbanCheck.LayoutIsIbanText(iban);
    NormalizeOfIbanText(iban);
    AcceptedExactly(Some(iban), registry);
    PrintedLowerCaseSameVerdict(iban, registry);
  }

  /** An IBAN built for a bank code the registry does not hold is rejected
      as unknown, although its check digits are right. */
  lemma BuiltIbanUnknownCode(bankCode: string, account: string, registry: Registry)
    requires |bankCode| == IbanCheck.AeBankCodeLength && IbanCheck.AllDigits(bankCode)
    requires |account| == IbanCheck.AeAccountNumberLength && IbanCheck.AllDigits(account)
    requires bankCode !in registry.byCode
    ensures Validate(Some(IbanCheck.BuildAeIban(bankCode, account)), registry) == Reject(UnknownBankCode)
  {
    var iban := IbanCheck.BuildAeIban(bankCode, account);
    IbanCheck.LayoutIsIbanText(iban);
    NormalizeOfIbanText(iban);
    BankCodeDecides(Some(iban), registry);
  }

  /** An alphanumeric value with another two-letter prefix is refused at
      the prefix guard, while the AE-only re-specification of the library
      check, IbanCheck.Validate, would report an unsupported country. */
  lemma ForeignPrefixRejected(s: string, registry: Registry)
    requires IsAlphanumeric(s) && |s| >= 2 && IsAsciiUpper(s[0]) && IsAsciiUpper(s[1])
    requires s[..2] != AePrefix
    ensures Validate(Some(s), registry) == Reject(NotAePrefix)
    ensures IbanCheck.Validate(s) == Some(IbanCheck.UnsupportedCountry)
  {
    NormalizeOfIbanText(s);
  }

  lemma BritishIbanText(s: string)
    requires s == "GB82WEST12345698765432"
    ensures IsAlphanumeric(s) && IsAsciiUpper(s[0]) && IsAsciiUpper(s[1]) && s[0] == 'G'
  {
  }

  /** A British IBAN is refused at the prefix guard. */
  lemma BritishIbanRejected(s: string, registry: Registry)
    requires s == "GB82WEST12345698765432"
    ensures Validate(Some(s), registry) == Reject(NotAePrefix)
    ensures IbanCheck.Validate(s) == Some(IbanCheck.UnsupportedCountry)
  {
    BritishIbanText(s);
    assert s[..2] != AePrefix by { assert s[..2][0] == 'G'; }
    ForeignPrefixRejected(s, registry);
  }

  /** A value that is already in normal form but holds a character outside
      [A-Z0-9] is refused as not alphanumeric. */
  lemma ForeignCharacterRejected(s: string, k: nat, registry: Registry)
    requires IsTrimmed(s) && k < |s| && !IsJavaWhitespace(s[k]) && !IbanCheck.IsIbanChar(s[k])
    requires forall i :: 0 <= i < |s| ==> !IsRegexWhitespace(s[i]) && !IsAsciiLower(s[i])
    ensures Validate(Some(s), registry) == Reject(NotAlphanumeric)
  {
    NormalizeOfClean(s);
  }

  lemma HyphenatedText(s: string)
    requires s == "AE07-0331-2345-6789-0123-456"
    ensures IsTrimmed(s) && |s| > 4 && s[4] == '-'
    ensures forall i :: 0 <= i < |s| ==> !IsRegexWhitespace(s[i]) && !IsAsciiLower(s[i])
  {
  }

  /** Hyphens make a value not alphanumeric. */
  lemma HyphenatedRejected(s: string, registry: Registry)
    requires s == "AE07-0331-2345-6789-0123-456"
    ensures Validate(Some(s), registry) == Reject(NotAlphanumeric)
  {
    HyphenatedText(s);
    ForeignCharacterRejected(s, 4, registry);
  }

  /** An alphanumeric AE value of any length but 23 fails the length guard. */
  lemma WrongLengthRejected(s: string, registry: Registry)
    requires IsAlphanumeric(s) && |s| >= 2 && s[..2] == AePrefix && |s| != IbanLength
    ensures Validate(Some(s), registry) == Reject(WrongLength)
  {
    NormalizeOfIbanText(s);
  }

  lemma ShortIbanText(s: string)
    requires s == "AE07033123456789012345"
    ensures IsAlphanumeric(s) && |s| == 22 && s[0] == 'A' && s[1] == 'E'
  {
  }

  /** A 22-character AE value fails the length guard. */
  lemma ShortIbanRejected(s: string, registry: Registry)
    requires s == "AE07033123456789012345"
    ensures Validate(Some(s), registry) == Reject(WrongLength)
  {
    ShortIbanText(s);
    assert s[..2] == AePrefix;
    WrongLengthRejected(s, registry);
  }
}
