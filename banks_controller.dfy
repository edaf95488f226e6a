/** The bank lookup endpoints' own logic: the path code is zero-padded to
    three digits before the registry is asked, the search limit is clamped
    into [1, 200], and the search results are sorted by bank code in place.
    Request mapping and HTTP status handling are not modelled. */
module BanksController {
  import opened Wrappers
  import opened JavaText
  import opened BankRegistry

  const MinLimit: int := 1
  const MaxLimit: int := 200
  /** The value the limit request parameter takes when it is absent. */
  const DefaultLimit: int := 50

  /** The failure getByCode raises for a code the registry does not hold. */
  datatype LookupError = BankCodeNotFound

  /** c.matches("^\\d{1,3}$"): one to three ASCII digits. */
  predicate IsShortNumber(c: string)
    ensures IsShortNumber(c) ==> IsTrimmed(c) && !IsBlank(c)
  {
    1 <= |c| <= 3 && forall i :: 0 <= i < |c| ==> IsAsciiDigit(c[i])
  }

  function DigitValue(c: char): nat
    requires IsAsciiDigit(c)
  {
    c as int - '0' as int
  }

  function DigitChar(d: nat): (c: char)
    requires d < 10
    ensures IsAsciiDigit(c) && DigitValue(c) == d
  {
    ('0' as int + d) as char
  }

  /** Integer.parseInt of a string of ASCII digits. */
  function ParseDigits(s: string): (v: nat)
    requires forall i :: 0 <= i < |s| ==> IsAsciiDigit(s[i])
    ensures v < Pow10(|s|)
  {
    if s == [] then 0
    else ParseDigits(s[..|s| - 1]) * 10 + DigitValue(s[|s| - 1])
  }

  function Pow10(n: nat): nat {
    if n == 0 then 1 else 10 * Pow10(n - 1)
  }

  /** String.format("%03d", n) for 0 <= n < 1000. */
  function Format3(n: nat): (s: string)
    requires n < 1000
    ensures IsBankCode(s)
  {
    [DigitChar(n / 100), DigitChar(n / 10 % 10), DigitChar(n % 10)]
  }

  function Zeros(k: nat): (s: string)
    ensures |s| == k && forall i :: 0 <= i < k ==> s[i] == '0'
  {
    seq(k, _ => '0')
  }

  /** Formatting and parsing back give the number again. */
  lemma ParseFormat3(n: nat)
    requires n < 1000
    ensures ParseDigits(Format3(n)) == n
  {
    var s := Format3(n);
    ParseShortNumber(s);
    assert DigitValue(s[0]) == n / 100 && DigitValue(s[1]) == n / 10 % 10 && DigitValue(s[2]) == n % 10;
    DecimalDigits(n);
  }

  /** A number below 1000 is the sum of its three decimal digits by place. */
  lemma DecimalDigits(n: nat)
    requires n < 1000
    ensures n == (n / 100) * 100 + (n / 10 % 10) * 10 + n % 10
  {
    var t := n / 10;
    assert n == 10 * t + n % 10;
    assert t == 10 * (t / 10) + t % 10;
    assert t / 10 == n / 100;
  }

  lemma DigitRoundTrip(c: char)
    requires IsAsciiDigit(c)
    ensures DigitChar(DigitValue(c)) == c
  {
  }

  /** A number below 1000 is printed as its three decimal digits. */
  lemma Format3Digits(h: nat, t: nat, u: nat)
    requires h < 10 && t < 10 && u < 10
    ensures h * 100 + t * 10 + u < 1000
    ensures Format3(h * 100 + t * 10 + u) == [DigitChar(h), DigitChar(t), DigitChar(u)]
  {
    ThreeDigits(h, t, u);
  }

  lemma ThreeDigits(h: nat, t: nat, u: nat)
    requires h < 10 && t < 10 && u < 10
    ensures (h * 100 + t * 10 + u) / 100 == h
    ensures (h * 100 + t * 10 + u) / 10 % 10 == t
    ensures (h * 100 + t * 10 + u) % 10 == u
  {
    var n := h * 100 + t * 10 + u;
    assert n == 100 * h + (10 * t + u) && 10 * t + u < 100;
    assert n == 10 * (10 * h + t) + u;
    assert 10 * h + t == 10 * h + t;
  }

  /** The value of one to three digits, written out by position. */
  lemma ParseShortNumber(c: string)
    requires IsShortNumber(c)
    ensures |c| == 1 ==> ParseDigits(c) == DigitValue(c[0])
    ensures |c| == 2 ==> ParseDigits(c) == DigitValue(c[0]) * 10 + DigitValue(c[1])
    ensures |c| == 3 ==> ParseDigits(c) == DigitValue(c[0]) * 100 + DigitValue(c[1]) * 10 + DigitValue(c[2])
  {
    var p := c[..|c| - 1];
    if |c| >= 2 {
      var pp := p[..|p| - 1];
      if |c| == 3 {
        assert pp[..0] == [];
      } else {
        assert pp == [];
      }
    } else {
      assert p == [];
    }
  }

  /** One digit d prints as "00d". */
  lemma PadOneDigit(c: string, v: nat)
    requires IsShortNumber(c) && |c| == 1 && v == DigitValue(c[0])
    ensures v < 1000 && Format3(v) == Zeros(2) + c
  {
    DigitRoundTrip(c[0]);
    Format3Digits(0, 0, v);
    assert Zeros(2) + c == ['0', '0', c[0]];
  }

  /** Two digits de print as "0de". */
  lemma PadTwoDigits(c: string, v: nat)
    requires IsShortNumber(c) && |c| == 2 && v == DigitValue(c[0]) * 10 + DigitValue(c[1])
    ensures v < 1000 && Format3(v) == Zeros(1) + c
  {
    DigitRoundTrip(c[0]);
    DigitRoundTrip(c[1]);
    Format3Digits(0, DigitValue(c[0]), DigitValue(c[1]));
    assert Zeros(1) + c == ['0', c[0], c[1]];
  }

  /** Three digits print as themselves. */
  lemma PadThreeDigits(c: string, v: nat)
    requires IsShortNumber(c) && |c| == 3
    requires v == DigitValue(c[0]) * 100 + DigitValue(c[1]) * 10 + DigitValue(c[2])
    ensures v < 1000 && Format3(v) == Zeros(0) + c
  {
    DigitRoundTrip(c[0]);
    DigitRoundTrip(c[1]);
    DigitRoundTrip(c[2]);
    Format3Digits(DigitValue(c[0]), DigitValue(c[1]), DigitValue(c[2]));
    assert Zeros(0) + c == [c[0], c[1], c[2]];
  }

  /** Formatting the value of one to three digits pads them with zeros on
      the left to three characters. */
  lemma PadShortNumber(c: string)
    requires IsShortNumber(c)
    ensures ParseDigits(c) < 1000
    ensures Format3(ParseDigits(c)) == Zeros(3 - |c|) + c
  {
    ParseShortNumber(c);
    var v := ParseDigits(c);
    if |c| == 1 {
      PadOneDigit(c, v);
    } else if |c| == 2 {
      PadTwoDigits(c, v);
    } else {
      PadThreeDigits(c, v);
    }
  }

  /** normalizeCode: a missing code is "", a trimmed code of one to three
      digits is zero-padded to three, anything else is only trimmed. */
  function NormalizeCode(code: Option<string>): (r: string)
    ensures code.None? ==> r == ""
    ensures code.Some? && IsShortNumber(Trim(code.value)) ==>
              && IsBankCode(r)
              && r == Zeros(3 - |Trim(code.value)|) + Trim(code.value)
              && ParseDigits(r) == ParseDigits(Trim(code.value))
    ensures code.Some? && !IsShortNumber(Trim(code.value)) ==> r == Trim(code.value)
  {
    if code.None? then ""
    else
      var c := Trim(code.value);
      if !IsShortNumber(c) then c
      else
        PadShortNumber(c);
        ParseFormat3(ParseDigits(c));
        Format3(ParseDigits(c))
  }

  /** Normalising a normalised code changes nothing. */
  lemma NormalizeCodeIdempotent(code: Option<string>)
    ensures NormalizeCode(Some(NormalizeCode(code))) == NormalizeCode(code)
  {
    var r := NormalizeCode(code);
    if code.None? {
      assert Trim(r) == r;
    } else if IsShortNumber(Trim(code.value)) {
      TrimOfTrimmed(r);
      assert Zeros(0) + r == r;
    } else {
      TrimIdempotent(code.value);
    }
  }

  /** Every three-digit code, surrounded by trimmable characters or not, is
      looked up as itself. */
  lemma NormalizeCodeOfBankCode(code: string, padded: string)
    requires IsBankCode(code) && Trim(padded) == code
    ensures NormalizeCode(Some(padded)) == code
  {
    assert Zeros(0) + code == code;
  }

  /** The path code "33" is looked up as "033", and found exactly when the
      registry holds "033". */
  lemma ShortCodeIsPadded(registry: Registry)
    ensures NormalizeCode(Some("33")) == "033"
    ensures GetByCode(registry, Some("33")).Success? <==> "033" in registry.byCode
  {
    TrimOfTrimmed("33");
    assert Zeros(1) + "33" == "033";
  }

  /** Math.max(1, Math.min(limit, 200)): the limit lies in [1, 200] and is
      left alone when it already does. */
  function ClampLimit(limit: int): (r: int)
    ensures MinLimit <= r <= MaxLimit
    ensures MinLimit <= limit <= MaxLimit ==> r == limit
    ensures limit < MinLimit ==> r == MinLimit
    ensures limit > MaxLimit ==> r == MaxLimit
  {
    Max(MinLimit, Min(limit, MaxLimit))
  }

  function Max(a: int, b: int): int {
    if a >= b then a else b
  }

  lemma ClampLimitIdempotent(limit: int)
    ensures ClampLimit(ClampLimit(limit)) == ClampLimit(limit)
  {
  }

  /** getByCode: the record the registry holds under the normalised code, or
      not found. */
  function GetByCode(registry: Registry, code: Option<string>): (r: Result<BankInfo, LookupError>)
    ensures r.Success? <==> NormalizeCode(code) in registry.byCode
    ensures r.Success? ==> r.value == registry.byCode[NormalizeCode(code)]
    ensures registry.Valid() && r.Success? ==> r.value.bankCode == NormalizeCode(code)
  {
    match registry.Get(NormalizeCode(code))
    case Some(info) => Success(info)
    case None => Failure(BankCodeNotFound)
  }

  /** A code and its normal form find the same record. */
  lemma GetByNormalizedCode(registry: Registry, code: Option<string>)
    ensures GetByCode(registry, Some(NormalizeCode(code))) == GetByCode(registry, code)
  {
    NormalizeCodeIdempotent(code);
  }

  // ---------------------------------------------------------------------
  // Sorting by bank code

  predicate CodeLe(x: BankInfo, y: BankInfo) {
    LexLe(x.bankCode, y.bankCode)
  }

  /** Ascending by bank code (String.compareTo). */
  predicate SortedByCode(s: seq<BankInfo>) {
    forall i, j :: 0 <= i < j < |s| ==> CodeLe(s[i], s[j])
  }

  /** Insertion invariant while the element that started at index n moves
      down: it now sits at j, everything up to n but j is in order, and it is
      no greater than anything after it. */
  predicate Inserting(s: seq<BankInfo>, n: nat, j: nat)
    requires j <= n < |s|
  {
    && (forall x, y :: 0 <= x < y <= n && x != j && y != j ==> CodeLe(s[x], s[y]))
    && (forall y :: j < y <= n ==> CodeLe(s[j], s[y]))
  }

  lemma InsertStart(s: seq<BankInfo>, n: nat)
    requires n < |s| && SortedByCode(s[..n])
    ensures Inserting(s, n, n)
  {
    forall x, y | 0 <= x < y <= n && x != n && y != n ensures CodeLe(s[x], s[y]) {
      assert s[x] == s[..n][x] && s[y] == s[..n][y];
    }
  }

  /** Swapping the moving element with a greater left neighbour keeps the
      insertion invariant one place further down. */
  lemma InsertSwap(s: seq<BankInfo>, n: nat, j: nat)
    requires 0 < j <= n < |s| && Inserting(s, n, j)
    requires !CodeLe(s[j - 1], s[j])
    ensures Inserting(s[j - 1 := s[j]][j := s[j - 1]], n, j - 1)
  {
    var t := s[j - 1 := s[j]][j := s[j - 1]];
    LexLeTotal(s[j - 1].bankCode, s[j].bankCode);
    assert CodeLe(t[j - 1], t[j]);
    forall y | j - 1 < y <= n ensures CodeLe(t[j - 1], t[y]) {
      if y > j {
        LexLeTransitive(s[j].bankCode, s[j - 1].bankCode, s[y].bankCode);
      }
    }
  }

  lemma SwapKeepsMultiset(s: seq<BankInfo>, i: nat, j: nat)
    requires i < j < |s|
    ensures multiset(s[i := s[j]][j := s[i]]) == multiset(s)
  {
  }

  /** Once the moving element has no greater left neighbour, the first
      n + 1 elements are sorted. */
  lemma InsertDone(s: seq<BankInfo>, n: nat, j: nat)
    requires j <= n < |s| && Inserting(s, n, j)
    requires j == 0 || CodeLe(s[j - 1], s[j])
    ensures SortedByCode(s[..n + 1])
  {
    forall x, y | 0 <= x < y <= n ensures CodeLe(s[x], s[y]) {
      if y == j && x < j - 1 {
        LexLeTransitive(s[x].bankCode, s[j - 1].bankCode, s[j].bankCode);
      }
    }
    assert forall x :: 0 <= x <= n ==> s[..n + 1][x] == s[x];
  }

  /** results.sort(Comparator.comparing(AeBankInfo::bankCode)), as an
      insertion sort that swaps each new element down into place. */
  method SortByCode(a: array<BankInfo>)
    modifies a
    ensures SortedByCode(a[..])
    ensures multiset(a[..]) == multiset(old(a[..]))
  {
    var n := 0;
    while n < a.Length
      invariant 0 <= n <= a.Length
      invariant SortedByCode(a[..n])
      invariant multiset(a[..]) == multiset(old(a[..]))
    {
      InsertStart(a[..], n);
      var j := n;
      while j > 0 && !CodeLe(a[j - 1], a[j])
        invariant 0 <= j <= n < a.Length
        invariant Inserting(a[..], n, j)
        invariant multiset(a[..]) == multiset(old(a[..]))
      {
        InsertSwap(a[..], n, j);
        SwapKeepsMultiset(a[..], j - 1, j);
        a[j - 1], a[j] := a[j], a[j - 1];
        j := j - 1;
      }
      InsertDone(a[..], n, j);
      n := n + 1;
    }
    assert a[..] == a[..a.Length];
  }

  /** Records with pairwise different bank codes. */
  predicate DistinctCodes(s: seq<BankInfo>) {
    forall i, j :: 0 <= i < j < |s| ==> s[i].bankCode != s[j].bankCode
  }

  /** Two sorted listings of the same records with distinct codes start
      with the same record. */
  lemma SortedSameFirst(s: seq<BankInfo>, t: seq<BankInfo>)
    requires SortedByCode(s) && SortedByCode(t) && DistinctCodes(s)
    requires multiset(s) == multiset(t) && s != []
    ensures t != [] && s[0] == t[0]
  {
    assert s[0] in multiset(t);
    var i :| 0 <= i < |t| && t[i] == s[0];
    assert t[0] in multiset(s);
    var k :| 0 <= k < |s| && s[k] == t[0];
    if k != 0 {
      if i != 0 {
        assert CodeLe(s[0], s[k]) && CodeLe(t[0], t[i]);
        LexLeAntisymmetric(s[0].bankCode, s[k].bankCode);
      }
    }
  }

  /** Two sorted listings of the same records, no two with the same code,
      are the same listing: the sorted response does not depend on the
      order the registry produced it in. */
  lemma {:induction false} SortedIsUnique(s: seq<BankInfo>, t: seq<BankInfo>)
    requires SortedByCode(s) && SortedByCode(t) && DistinctCodes(s)
    requires multiset(s) == multiset(t)
    ensures s == t
    decreases |s|
  {
    if s == [] {
      assert |t| == |multiset(t)|;
    } else {
      SortedSameFirst(s, t);
      SortedTail(s);
      SortedTail(t);
      TailMultiset(s);
      TailMultiset(t);
      SortedIsUnique(s[1..], t[1..]);
      assert s == [s[0]] + s[1..] && t == [t[0]] + t[1..];
    }
  }

  lemma SortedTail(s: seq<BankInfo>)
    requires s != [] && SortedByCode(s)
    ensures SortedByCode(s[1..])
    ensures DistinctCodes(s) ==> DistinctCodes(s[1..])
  {
    assert forall i :: 0 <= i < |s| - 1 ==> s[1..][i] == s[i + 1];
  }

  lemma TailMultiset(s: seq<BankInfo>)
    requires s != []
    ensures multiset(s[1..]) == multiset(s) - multiset{s[0]}
  {
    assert s == [s[0]] + s[1..];
    assert multiset(s) == multiset{s[0]} + multiset(s[1..]);
  }

  /** No record occurs twice. */
  predicate DistinctItems(s: seq<BankInfo>) {
    forall i, j :: 0 <= i < j < |s| ==> s[i] != s[j]
  }

  /** In a listing without repeats every record occurs at most once. */
  lemma {:induction false} OnceEach(s: seq<BankInfo>, x: BankInfo)
    requires DistinctItems(s)
    ensures multiset(s)[x] == if x in s then 1 else 0
    decreases |s|
  {
    if s != [] {
      OnceEach(s[1..], x);
      assert s == [s[0]] + s[1..];
      assert x == s[0] ==> x !in s[1..];
    }
  }

  /** A listing in which every record occurs at most once has no repeats. */
  lemma NoRepeatsFromCounts(s: seq<BankInfo>)
    requires forall x :: multiset(s)[x] <= 1
    ensures DistinctItems(s)
  {
    forall i, j | 0 <= i < j < |s| ensures s[i] != s[j] {
      if s[i] == s[j] {
        RepeatCountsTwice(s, i, j);
      }
    }
  }

  lemma RepeatCountsTwice(s: seq<BankInfo>, i: nat, j: nat)
    requires i < j < |s| && s[i] == s[j]
    ensures multiset(s)[s[i]] >= 2
  {
    assert s == s[..j] + s[j..];
    assert s[i] in s[..j] && s[j] in s[j..];
    assert multiset(s)[s[i]] == multiset(s[..j])[s[i]] + multiset(s[j..])[s[i]];
  }

  /** Two listings without repeats of the same records are permutations of
      each other. */
  lemma SameRecordsSameMultiset(s: seq<BankInfo>, t: seq<BankInfo>)
    requires DistinctItems(s) && DistinctItems(t)
    requires forall x :: x in s <==> x in t
    ensures multiset(s) == multiset(t)
  {
    forall x ensures multiset(s)[x] == multiset(t)[x] {
      OnceEach(s, x);
      OnceEach(t, x);
    }
  }

  /** The limit request parameter, DefaultLimit when it is absent. */
  function LimitParam(limit: Option<int>): int {
    match limit
    case None => DefaultLimit
    case Some(n) => n
  }

  /** search: clamp the limit, ask the registry, sort what it returns by
      bank code. The registry's iteration order is the parameter `order`.
      The response is a sorted permutation of what the registry returned,
      with no two records for one code. */
  method Search(registry: Registry, q: Option<string>, bic: Option<string>, limit: Option<int>, order: seq<string>)
    returns (results: seq<BankInfo>)
    requires registry.Valid() && registry.IsIterationOrder(order)
    ensures var found := registry.Search(q, bic, ClampLimit(LimitParam(limit)), order);
            && found.Success?
            && SortedByCode(results)
            && multiset(results) == multiset(found.value)
    ensures |results| <= MaxLimit
    ensures limit.None? ==> |results| <= DefaultLimit
    ensures DistinctCodes(results)
  {
    var capped := ClampLimit(LimitParam(limit));
    var found := registry.Search(q, bic, capped, order);
    var items := found.value;
    var a := new BankInfo[|items|](i requires 0 <= i < |items| => items[i]);
    assert a[..] == items;
    SortByCode(a);
    results := a[..];
    StoredPermutationDistinct(registry, items, results);
  }

  /** A reordering of distinct records, each stored under its own code,
      has no two records with one code. */
  lemma StoredPermutationDistinct(registry: Registry, items: seq<BankInfo>, results: seq<BankInfo>)
    requires DistinctItems(items)
    requires forall i :: 0 <= i < |items| ==>
               items[i].bankCode in registry.byCode && registry.byCode[items[i].bankCode] == items[i]
    requires multiset(results) == multiset(items)
    ensures |results| == |items|
    ensures DistinctCodes(results)
  {
    assert |results| == |multiset(items)| == |items|;
    forall x ensures multiset(results)[x] <= 1 {
      OnceEach(items, x);
    }
    NoRepeatsFromCounts(results);
    forall i | 0 <= i < |results|
      ensures results[i].bankCode in registry.byCode
      ensures registry.byCode[results[i].bankCode] == results[i]
    {
      assert results[i] in multiset(items);
      var k :| 0 <= k < |items| && items[k] == results[i];
    }
  }

  /** When every match fits, a record is found exactly when it is stored
      under its own code and passes the filters. */
  lemma FoundExactly(
    registry: Registry, q: Option<string>, bic: Option<string>, limit: int, order: seq<string>, x: BankInfo)
    requires registry.Valid() && registry.IsIterationOrder(order) && limit >= 0
    requires |registry.MatchingKeys(ToLower(Safe(q)), ToUpper(Safe(bic)))| <= limit
    ensures registry.Search(q, bic, limit, order).Success?
    ensures x in registry.Search(q, bic, limit, order).value <==>
              && x.bankCode in registry.byCode && registry.byCode[x.bankCode] == x
              && registry.Matches(x, ToLower(Safe(q)), ToUpper(Safe(bic)))
  {
    var found := registry.Search(q, bic, limit, order).value;
    if x in found {
      var i :| 0 <= i < |found| && found[i] == x;
    }
  }

  /** When every matching record fits within the clamped limit, any two
      responses of the endpoint are equal, whatever order the registry
      enumerated its codes in. */
  lemma SearchResponseIgnoresOrder(
    registry: Registry, q: Option<string>, bic: Option<string>, limit: int,
    order1: seq<string>, order2: seq<string>, response1: seq<BankInfo>, response2: seq<BankInfo>)
    requires registry.Valid() && registry.IsIterationOrder(order1) && registry.IsIterationOrder(order2)
    requires |registry.MatchingKeys(ToLower(Safe(q)), ToUpper(Safe(bic)))| <= ClampLimit(limit)
    requires SortedByCode(response1) && SortedByCode(response2) && DistinctCodes(response1)
    requires multiset(response1) == multiset(registry.Search(q, bic, ClampLimit(limit), order1).value)
    requires multiset(response2) == multiset(registry.Search(q, bic, ClampLimit(limit), order2).value)
    ensures response1 == response2
  {
    var found1 := registry.Search(q, bic, ClampLimit(limit), order1).value;
    var found2 := registry.Search(q, bic, ClampLimit(limit), order2).value;
    forall x ensures x in found1 <==> x in found2 {
      FoundExactly(registry, q, bic, ClampLimit(limit), order1, x);
      FoundExactly(registry, q, bic, ClampLimit(limit), order2, x);
    }
    SameRecordsSameMultiset(found1, found2);
    SortedIsUnique(response1, response2);
  }
}
