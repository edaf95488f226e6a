/** The UAE bank-code registry: records loaded once from CSV lines, keyed by
    their 3-digit bank code, with a policy flag that restricts validity checks
    and searches to banks whose status is "Live". Reading the CSV resource
    from the classpath is not modelled: the loader receives its lines. */
module BankRegistry {
  import opened Wrappers
  import opened JavaText

  /** One row of the dataset. */
  datatype BankInfo = BankInfo(
    bankCode: string,
    participant: string,
    shortName: string,
    bic8: string,
    bic11: string,
    routingNo: string,
    status: string
  )

  /** The exception Stream.limit throws for a negative size. */
  datatype SearchError = NegativeLimit

  const FieldCount: nat := 7
  const FieldSeparator: char := ','

  /** The code pattern ^\d{3}$: exactly three ASCII digits. */
  predicate IsBankCode(s: string)
    ensures IsBankCode(s) ==> IsTrimmed(s) && !IsBlank(s)
  {
    |s| == 3 && IsAsciiDigit(s[0]) && IsAsciiDigit(s[1]) && IsAsciiDigit(s[2])
  }

  /** safe: a missing value reads as "", a present one is trimmed. */
  function Safe(s: Option<string>): (r: string)
    ensures IsTrimmed(r)
    ensures s.None? ==> r == ""
    ensures s.Some? && IsTrimmed(s.value) ==> r == s.value
  {
    match s
    case None => ""
    case Some(v) => TrimOfTrimmedIfTrimmed(v); Trim(v)
  }

  lemma TrimOfTrimmedIfTrimmed(v: string)
    ensures IsTrimmed(v) ==> Trim(v) == v
  {
    if IsTrimmed(v) { TrimOfTrimmed(v); }
  }

  /** The record a data line describes, if the loader keeps it. */
  function ParseRow(line: string): (r: Option<BankInfo>)
    ensures IsBlank(line) ==> r.None?
    ensures r.Some? ==>
              && |Split(line, FieldSeparator)| >= FieldCount
              && IsBankCode(r.value.bankCode) && IsTrimmed(r.value.participant)
              && IsTrimmed(r.value.shortName) && IsTrimmed(r.value.bic8) && IsTrimmed(r.value.bic11)
              && IsTrimmed(r.value.routingNo) && IsTrimmed(r.value.status)
  {
    if IsBlank(line) then None
    else
      var p := Split(line, FieldSeparator);
      if |p| < FieldCount then None
      else
        var code := Trim(p[0]);
        if !IsBankCode(code) then None
        else Some(BankInfo(code, Trim(p[1]), Trim(p[2]), Trim(p[3]), Trim(p[4]), Trim(p[5]), Trim(p[6])))
  }

  /** A line is kept exactly when it is not blank, has at least seven
      comma-separated fields and its trimmed first field is three ASCII
      digits; the kept record holds the trimmed fields. */
  lemma ParseRowKeeps(line: string)
    ensures ParseRow(line).Some? <==>
              && !IsBlank(line)
              && |Split(line, FieldSeparator)| >= FieldCount
              && IsBankCode(Trim(Split(line, FieldSeparator)[0]))
    ensures ParseRow(line).Some? ==>
              var p, r := Split(line, FieldSeparator), ParseRow(line).value;
              && r.bankCode == Trim(p[0]) && r.participant == Trim(p[1])
              && r.shortName == Trim(p[2]) && r.bic8 == Trim(p[3])
              && r.bic11 == Trim(p[4]) && r.routingNo == Trim(p[5])
              && r.status == Trim(p[6])
              && IsBankCode(r.bankCode) && IsTrimmed(r.participant) && IsTrimmed(r.shortName)
              && IsTrimmed(r.bic8) && IsTrimmed(r.bic11) && IsTrimmed(r.routingNo) && IsTrimmed(r.status)
  {
  }

  /** What the loader makes of each line: nothing of the header (line 0),
      ParseRow of every data line. */
  function Rows(lines: seq<string>): (rows: seq<Option<BankInfo>>)
    ensures |rows| == |lines|
    decreases |lines|
  {
    if |lines| <= 1 then seq(|lines|, _ => None)
    else Rows(lines[..|lines| - 1]) + [ParseRow(lines[|lines| - 1])]
  }

  lemma {:induction false} RowAt(lines: seq<string>, i: nat)
    requires i < |lines|
    ensures Rows(lines)[i] == if i == 0 then None else ParseRow(lines[i])
    decreases |lines|
  {
    if |lines| > 1 && i < |lines| - 1 {
      RowAt(lines[..|lines| - 1], i);
    }
  }

  /** The codes of the kept rows among rows[..n]. */
  function KeptCodes(rows: seq<Option<BankInfo>>, n: nat): set<string>
    requires n <= |rows|
  {
    set i | 0 <= i < n && rows[i].Some? :: rows[i].value.bankCode
  }

  /** Row i is kept and no earlier row was kept with its code. */
  predicate IsFirstForCode(rows: seq<Option<BankInfo>>, i: nat)
    requires i < |rows|
  {
    && rows[i].Some?
    && forall j :: 0 <= j < i && rows[j].Some? ==> rows[j].value.bankCode != rows[i].value.bankCode
  }

  /** The codes of every kept data line. */
  function LoadedCodes(lines: seq<string>): set<string> {
    KeptCodes(Rows(lines), |lines|)
  }

  /** Map.putIfAbsent for a row the parser may have rejected: a kept row is
      stored under its code unless that code is already present. */
  function PutIfAbsent(m: map<string, BankInfo>, row: Option<BankInfo>): (m': map<string, BankInfo>)
    ensures row.None? || row.value.bankCode in m ==> m' == m
    ensures row.Some? && row.value.bankCode !in m ==>
              m'.Keys == m.Keys + {row.value.bankCode} && m'[row.value.bankCode] == row.value
    ensures forall code :: code in m ==> code in m' && m'[code] == m[code]
  {
    if row.Some? && row.value.bankCode !in m then m[row.value.bankCode := row.value] else m
  }

  /** The map after the first n rows: putIfAbsent of each one in turn. */
  function LoadMap(rows: seq<Option<BankInfo>>, n: nat): map<string, BankInfo>
    requires n <= |rows|
  {
    if n == 0 then map[] else PutIfAbsent(LoadMap(rows, n - 1), rows[n - 1])
  }

  /** The loop of load(): skip the header line, skip the lines ParseRow
      rejects, and putIfAbsent each kept row under its code, so that the first
      row for a code wins. */
  method Load(lines: seq<string>) returns (byCode: map<string, BankInfo>)
    ensures byCode == LoadMap(Rows(lines), |lines|)
  {
    byCode := map[];
    var header := true;
    var n := 0;
    while n < |lines|
      invariant 0 <= n <= |lines|
      invariant header <==> n == 0
      invariant byCode == LoadMap(Rows(lines), n)
    {
      var line := lines[n];
      if header {
        header := false;
        LoadHeader(lines);
      } else {
        // blank lines, short rows and malformed codes come back as None
        var row := ParseRow(line);
        LoadLine(lines, n);
        byCode := PutIfAbsent(byCode, row);
      }
      n := n + 1;
    }
  }

  /** The header line adds nothing. */
  lemma LoadHeader(lines: seq<string>)
    requires |lines| > 0
    ensures LoadMap(Rows(lines), 1) == map[]
  {
    RowAt(lines, 0);
  }

  /** Every later line is put with putIfAbsent once parsed. */
  lemma LoadLine(lines: seq<string>, n: nat)
    requires 0 < n < |lines|
    ensures LoadMap(Rows(lines), n + 1) == PutIfAbsent(LoadMap(Rows(lines), n), ParseRow(lines[n]))
  {
    RowAt(lines, n);
  }

  /** What load() leaves in the map: the keys are exactly the codes of the
      kept data lines, each code holds the first kept row for it, and every
      key is a bank code stored under itself. */
  lemma LoadedMap(lines: seq<string>)
    ensures LoadMap(Rows(lines), |lines|).Keys == LoadedCodes(lines)
    ensures forall i :: 0 <= i < |lines| && IsFirstForCode(Rows(lines), i) ==>
              LoadMap(Rows(lines), |lines|)[Rows(lines)[i].value.bankCode] == Rows(lines)[i].value
    ensures forall code :: code in LoadMap(Rows(lines), |lines|) ==>
              LoadMap(Rows(lines), |lines|)[code].bankCode == code && IsBankCode(code)
  {
    var rows := Rows(lines);
    LoadMapKeys(rows, |lines|);
    LoadMapFirstRows(rows, |lines|);
    RowsHaveBankCodes(lines);
    LoadMapCodes(rows, |lines|);
  }

  /** The map after n rows holds exactly the kept codes. */
  lemma {:induction false} LoadMapKeys(rows: seq<Option<BankInfo>>, n: nat)
    requires n <= |rows|
    ensures LoadMap(rows, n).Keys == KeptCodes(rows, n)
  {
    if n > 0 {
      LoadMapKeys(rows, n - 1);
      KeptCodesStep(rows, n - 1);
    }
  }

  /** The map after n rows holds every first row under its code. */
  lemma {:induction false} LoadMapFirstRows(rows: seq<Option<BankInfo>>, n: nat)
    requires n <= |rows|
    ensures FirstRowsStored(rows, n, LoadMap(rows, n))
  {
    if n > 0 {
      LoadMapFirstRows(rows, n - 1);
      var m := LoadMap(rows, n - 1);
      if IsFirstForCode(rows, n - 1) {
        FirstRowIsNew(rows, n - 1);
      }
      forall i | 0 <= i < n && IsFirstForCode(rows, i)
        ensures rows[i].value.bankCode in LoadMap(rows, n)
        ensures LoadMap(rows, n)[rows[i].value.bankCode] == rows[i].value
      {
        if i < n - 1 {
          assert rows[i].value.bankCode in m;
        }
      }
    }
  }

  /** The first row for a code finds that code absent. */
  lemma FirstRowIsNew(rows: seq<Option<BankInfo>>, k: nat)
    requires k < |rows| && IsFirstForCode(rows, k)
    ensures rows[k].value.bankCode !in LoadMap(rows, k)
  {
    LoadMapKeys(rows, k);
    KeptCodesStep(rows, k);
  }

  /** When every kept row carries a bank code, every key of the map is a
      bank code and is its record's code. */
  lemma {:induction false} LoadMapCodes(rows: seq<Option<BankInfo>>, n: nat)
    requires n <= |rows|
    requires forall i :: 0 <= i < |rows| && rows[i].Some? ==> IsBankCode(rows[i].value.bankCode)
    ensures forall code :: code in LoadMap(rows, n) ==>
              LoadMap(rows, n)[code].bankCode == code && IsBankCode(code)
  {
    if n > 0 {
      LoadMapCodes(rows, n - 1);
    }
  }

  /** Every kept row carries a three-digit bank code. */
  lemma RowsHaveBankCodes(lines: seq<string>)
    ensures forall i :: 0 <= i < |lines| && Rows(lines)[i].Some? ==> IsBankCode(Rows(lines)[i].value.bankCode)
  {
    forall i | 0 <= i < |lines| && Rows(lines)[i].Some?
      ensures IsBankCode(Rows(lines)[i].value.bankCode)
    {
      RowAt(lines, i);
      ParseRowKeeps(lines[i]);
    }
  }

  /** Every first row before n is stored in m under its code. */
  predicate FirstRowsStored(rows: seq<Option<BankInfo>>, n: nat, m: map<string, BankInfo>)
    requires n <= |rows|
  {
    forall i {:trigger IsFirstForCode(rows, i)} :: 0 <= i < n && IsFirstForCode(rows, i) ==>
      rows[i].value.bankCode in m && m[rows[i].value.bankCode] == rows[i].value
  }

  /** One more row adds its code, if kept; it is the first for its code
      exactly when that code was not kept before. */
  lemma KeptCodesStep(rows: seq<Option<BankInfo>>, n: nat)
    requires n < |rows|
    ensures KeptCodes(rows, n + 1) ==
              KeptCodes(rows, n) + (if rows[n].Some? then {rows[n].value.bankCode} else {})
    ensures IsFirstForCode(rows, n) <==> rows[n].Some? && rows[n].value.bankCode !in KeptCodes(rows, n)
  {
    if rows[n].Some? && rows[n].value.bankCode in KeptCodes(rows, n) {
      var j :| 0 <= j < n && rows[j].Some? && rows[j].value.bankCode == rows[n].value.bankCode;
    }
  }

  /** "Live".equalsIgnoreCase(safe(status)). */
  predicate IsLive(status: string)
    ensures IsLive(status) <==> ToUpper(Trim(status)) == "LIVE"
  {
    EqualsIgnoreCase("Live", Safe(Some(status)))
  }

  class Registry {
    const liveOnly: bool
    const byCode: map<string, BankInfo>

    /** Every record is stored under its own bank code. */
    predicate Valid() {
      forall code :: code in byCode ==> byCode[code].bankCode == code
    }

    constructor (liveOnly: bool, lines: seq<string>)
      ensures this.liveOnly == liveOnly
      ensures Valid()
      ensures byCode.Keys == LoadedCodes(lines)
      ensures forall i :: 0 <= i < |lines| && IsFirstForCode(Rows(lines), i) ==>
                byCode[Rows(lines)[i].value.bankCode] == Rows(lines)[i].value
      ensures Size() == |LoadedCodes(lines)|
    {
      this.liveOnly := liveOnly;
      var loaded := Load(lines);
      LoadedMap(lines);
      this.byCode := loaded;
    }

    /** The code is loaded and, under the live-only policy, its status is Live. */
    predicate IsValid(bankCode: string)
      ensures IsValid(bankCode) ==> bankCode in byCode
      ensures !liveOnly ==> (IsValid(bankCode) <==> bankCode in byCode)
      ensures liveOnly ==> (IsValid(bankCode) <==> bankCode in byCode && IsLive(byCode[bankCode].status))
    {
      if bankCode !in byCode then false
      else if !liveOnly then true
      else IsLive(byCode[bankCode].status)
    }

    /** The stored record, whatever its status. */
    function Get(bankCode: string): (r: Option<BankInfo>)
      ensures r.None? <==> bankCode !in byCode
      ensures r.Some? ==> r.value == byCode[bankCode] && r.value in byCode.Values
      ensures Valid() && r.Some? ==> r.value.bankCode == bankCode
    {
      if bankCode in byCode then Some(byCode[bankCode]) else None
    }

    function Size(): (n: nat)
      ensures n == |byCode.Keys|
    {
      |byCode|
    }

    /** The three filters of search, with q and bic already reduced to qn
        (trimmed, lower case) and bicN (trimmed, upper case). */
    predicate Matches(info: BankInfo, qn: string, bicN: string)
      ensures qn == [] && bicN == [] ==> (Matches(info, qn, bicN) <==> !liveOnly || IsLive(info.status))
      ensures Matches(info, qn, bicN) && bicN != [] ==>
                |bicN| == |Trim(info.bic8)| || |bicN| == |Trim(info.bic11)|
      ensures Matches(info, qn, bicN) && qn != [] ==>
                |qn| <= |Trim(info.participant)| + 1 + |Trim(info.shortName)|
    {
      && (!liveOnly || IsLive(info.status))
      && (bicN == [] || EqualsIgnoreCase(bicN, Safe(Some(info.bic8))) || EqualsIgnoreCase(bicN, Safe(Some(info.bic11))))
      && (qn == [] || Contains(ToLower(Safe(Some(info.participant)) + " " + Safe(Some(info.shortName))), qn))
    }

    /** A listing of the map's keys in the order the map hands them out. */
    predicate IsIterationOrder(order: seq<string>) {
      && (forall i, j :: 0 <= i < j < |order| ==> order[i] != order[j])
      && (forall code :: code in order ==> code in byCode)
      && (forall code :: code in byCode ==> code in order)
    }

    /** The codes in `order` whose records pass the filters, in that order. */
    function MatchingCodes(order: seq<string>, qn: string, bicN: string): (codes: seq<string>)
      requires forall code :: code in order ==> code in byCode
      ensures forall code :: code in codes <==> code in order && Matches(byCode[code], qn, bicN)
      ensures |codes| <= |order|
      ensures (forall i, j :: 0 <= i < j < |order| ==> order[i] != order[j]) ==>
                forall i, j :: 0 <= i < j < |codes| ==> codes[i] != codes[j]
    {
      if order == [] then []
      else
        var rest := MatchingCodes(order[1..], qn, bicN);
        assert forall code :: code in order[1..] ==> code in order;
        if Matches(byCode[order[0]], qn, bicN) then [order[0]] + rest else rest
    }

    /** search(q, bic, limit): the records that pass the live-only policy, the
        exact BIC filter and the name-substring filter, taken in the map's
        iteration order `order` and cut to `limit`. A negative limit is the
        exception Stream.limit throws. */
    function Search(q: Option<string>, bic: Option<string>, limit: int, order: seq<string>)
      : (r: Result<seq<BankInfo>, SearchError>)
      requires Valid() && IsIterationOrder(order)
      ensures r.Failure? <==> limit < 0
      ensures r.Success? ==>
                var qn, bicN := ToLower(Safe(q)), ToUpper(Safe(bic));
                && |r.value| <= limit
                && (forall i :: 0 <= i < |r.value| ==>
                      r.value[i].bankCode in byCode && byCode[r.value[i].bankCode] == r.value[i]
                      && Matches(r.value[i], qn, bicN))
                && (forall i, j :: 0 <= i < j < |r.value| ==> r.value[i] != r.value[j])
                && |r.value| == Min(limit, |MatchingKeys(qn, bicN)|)
                && (|MatchingKeys(qn, bicN)| <= limit ==>
                      forall code :: code in byCode && Matches(byCode[code], qn, bicN) ==> byCode[code] in r.value)
    {
      if limit < 0 then Failure(NegativeLimit)
      else
        var qn, bicN := ToLower(Safe(q)), ToUpper(Safe(bic));
        var codes := MatchingCodes(order, qn, bicN);
        var kept := codes[..Min(limit, |codes|)];
        MatchingCount(order, qn, bicN);
        PrefixLoaded(codes, Min(limit, |codes|));
        RecordsDistinct(kept);
        RecordsComplete(order, qn, bicN, limit);
        Success(Records(kept))
    }

    /** The stored records for a list of loaded codes, in the same order. */
    function Records(codes: seq<string>): (items: seq<BankInfo>)
      requires forall code :: code in codes ==> code in byCode
      ensures |items| == |codes|
      ensures forall i :: 0 <= i < |codes| ==> items[i] == byCode[codes[i]]
    {
      seq(|codes|, i requires 0 <= i < |codes| => byCode[codes[i]])
    }

    /** A prefix keeps the first n elements in place. */
    lemma PrefixLoaded(codes: seq<string>, n: nat)
      requires n <= |codes|
      ensures forall i :: 0 <= i < n ==> codes[..n][i] == codes[i]
      ensures forall code :: code in codes[..n] ==> code in codes
    {
    }

    /** Listing the matching codes in a repeat-free order of all keys lists
        each matching key once. */
    lemma MatchingCount(order: seq<string>, qn: string, bicN: string)
      requires IsIterationOrder(order)
      ensures |MatchingCodes(order, qn, bicN)| == |MatchingKeys(qn, bicN)|
    {
      var codes := MatchingCodes(order, qn, bicN);
      DistinctCardinality(codes);
      assert (set i | 0 <= i < |codes| :: codes[i]) == MatchingKeys(qn, bicN);
    }

    /** Distinct codes give distinct records. */
    lemma RecordsDistinct(codes: seq<string>)
      requires Valid() && forall code :: code in codes ==> code in byCode
      requires forall i, j :: 0 <= i < j < |codes| ==> codes[i] != codes[j]
      ensures forall i, j :: 0 <= i < j < |codes| ==> Records(codes)[i] != Records(codes)[j]
    {
      var items := Records(codes);
      forall i, j | 0 <= i < j < |items| ensures items[i] != items[j] {
        assert items[i].bankCode == codes[i] && items[j].bankCode == codes[j];
      }
    }

    /** When every match fits under the limit, every matching record is
        among the records of the kept codes. */
    lemma RecordsComplete(order: seq<string>, qn: string, bicN: string, limit: int)
      requires IsIterationOrder(order) && limit >= 0
      ensures var codes := MatchingCodes(order, qn, bicN);
              |MatchingKeys(qn, bicN)| <= limit ==>
                forall code :: code in byCode && Matches(byCode[code], qn, bicN) ==>
                  byCode[code] in Records(codes[..Min(limit, |codes|)])
    {
      var codes := MatchingCodes(order, qn, bicN);
      if |MatchingKeys(qn, bicN)| <= limit {
        MatchingCount(order, qn, bicN);
        assert codes[..Min(limit, |codes|)] == codes;
        var items := Records(codes);
        forall code | code in byCode && Matches(byCode[code], qn, bicN) ensures byCode[code] in items {
          var i :| 0 <= i < |codes| && codes[i] == code;
          assert items[i] == byCode[code];
        }
      }
    }

    /** The codes of all records that pass the filters. */
    function MatchingKeys(qn: string, bicN: string): set<string> {
      set code | code in byCode && Matches(byCode[code], qn, bicN)
    }
  }

  function Min(a: int, b: int): int {
    if a <= b then a else b
  }

  /** A duplicate-free sequence has as many elements as its set. */
  lemma {:induction false} DistinctCardinality(s: seq<string>)
    requires forall i, j :: 0 <= i < j < |s| ==> s[i] != s[j]
    ensures |set i | 0 <= i < |s| :: s[i]| == |s|
  {
    if s != [] {
      var tail := s[1..];
      assert forall i :: 0 <= i < |tail| ==> tail[i] == s[i + 1];
      DistinctCardinality(tail);
      ElementsOfCons(s);
    }
  }

  /** The elements of a repeat-free sequence: its head, not among the
      elements of its tail, and those. */
  lemma ElementsOfCons(s: seq<string>)
    requires s != [] && forall i, j :: 0 <= i < j < |s| ==> s[i] != s[j]
    ensures (set i | 0 <= i < |s| :: s[i]) == {s[0]} + (set i | 0 <= i < |s[1..]| :: s[1..][i])
    ensures s[0] !in (set i | 0 <= i < |s[1..]| :: s[1..][i])
  {
    var tail := s[1..];
    var all := set i | 0 <= i < |s| :: s[i];
    var rest := set i | 0 <= i < |tail| :: tail[i];
    forall x | x in all ensures x in {s[0]} + rest {
      var i :| 0 <= i < |s| && s[i] == x;
      if i > 0 { assert tail[i - 1] == x; }
    }
    forall x | x in rest ensures x in all && x != s[0] {
      var i :| 0 <= i < |tail| && tail[i] == x;
      assert s[i + 1] == x;
    }
  }

}
