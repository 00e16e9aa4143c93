/** Validation of one trade report: identifier checks and the T+2 / T+4 deadline. */
module TradeReport {
  import opened Options
  import opened BusinessDays
  import Lei
  import Text

  const UTI_MIN_LENGTH := 20
  const UTI_MAX_LENGTH := 52
  const UPI_LENGTH := 12
  const NON_LEI_MAX_LENGTH := 72
  const PACKAGE_MAX_LENGTH := 100
  const STANDARD_DEADLINE_DAYS := 2
  const PACKAGE_DEADLINE_DAYS := 4

  datatype Trade = Trade(
    tradeDate: int,
    counterparty: Option<string>,
    counterpartyIsLei: bool,
    uti: Option<string>,
    upi: Option<string>,
    package: Option<string>,
    requiresPackage: bool,
    isFxSwapLeg: bool,
    isTermination: bool)

  datatype Defect =
    | InvalidLei | InvalidCounterparty | InvalidUti | InvalidUpi | MissingUpi
    | InvalidPackage | MissingPackage

  datatype Record = Record(
    ready: bool,
    late: bool,
    defects: seq<Defect>,
    deadline: int,
    outageReliefMayApply: bool)

  function Normalised(s: Option<string>): string { if s.None? then "" else Text.Strip(s.value) }

  predicate IsVowelLike(c: char) { c in "AEIOUY" }

  predicate IsLower(c: char) { 'a' <= c <= 'z' }

  predicate IsValidUti(s: string) { UTI_MIN_LENGTH <= |s| <= UTI_MAX_LENGTH && Lei.AllInAlphabet(s) }

  predicate IsValidUpi(s: string)
  {
    && |s| == UPI_LENGTH && s[..2] == "QZ"
    && forall i :: 0 <= i < |s| ==> Lei.InAlphabet(s[i]) && !IsVowelLike(s[i])
  }

  predicate IsValidCode(s: string, max: nat)
  {
    && 0 < |s| <= max
    && forall i :: 0 <= i < |s| ==> Lei.InAlphabet(s[i]) || IsLower(s[i])
  }

  function DeadlineDays(t: Trade): nat
  {
    if t.requiresPackage && !t.isFxSwapLeg then PACKAGE_DEADLINE_DAYS else STANDARD_DEADLINE_DAYS
  }

  /** When each defect is present. */
  predicate Has(t: Trade, d: Defect)
  {
    var cp, uti, upi, pkg := Normalised(t.counterparty), Normalised(t.uti), Normalised(t.upi), Normalised(t.package);
    match d
    case InvalidLei => t.counterpartyIsLei && !Lei.IsValidLei(cp)
    case InvalidCounterparty => !t.counterpartyIsLei && !IsValidCode(cp, NON_LEI_MAX_LENGTH)
    case InvalidUti => !IsValidUti(uti)
    case InvalidUpi => upi != "" && !IsValidUpi(upi)
    case MissingUpi => upi == "" && !t.isTermination
    case InvalidPackage => pkg != "" && !IsValidCode(pkg, PACKAGE_MAX_LENGTH)
    case MissingPackage => pkg == "" && t.requiresPackage
  }

  predicate Upper(s: string) { forall c :: c in s ==> '0' <= c <= '9' || 'A' <= c <= 'Z' }

  predicate Plain(s: string) { forall c :: c in s ==> '0' <= c <= '9' || 'A' <= c <= 'Z' || 'a' <= c <= 'z' }

  predicate UtiLike(s: string) { 20 <= |s| <= 52 && Upper(s) }

  predicate UpiLike(s: string)
  {
    |s| == 12 && s[0] == 'Q' && s[1] == 'Z' && Upper(s) && forall c :: c in "AEIOUY" ==> c !in s
  }

  /** A UTI has 20 to 52 capitals and digits. */
  lemma {:induction false} UtiShape(s: string)
    ensures IsValidUti(s) <==> UtiLike(s)
  {
    if IsValidUti(s) {
      forall c | c in s ensures Lei.InAlphabet(c) {
      }
    }
    if Upper(s) {
      forall i | 0 <= i < |s| ensures Lei.InAlphabet(s[i]) {
        assert s[i] in s;
      }
    }
  }

  /** A UPI has twelve capitals and digits, starts with QZ and has no vowel or Y. */
  lemma {:induction false} UpiShape(s: string)
    ensures IsValidUpi(s) <==> UpiLike(s)
  {
    if IsValidUpi(s) {
      assert s[0] == s[..2][0] && s[1] == s[..2][1];
      forall c | c in s ensures Lei.InAlphabet(c) && !IsVowelLike(c) {
      }
    }
    if UpiLike(s) {
      assert s[..2] == "QZ";
      forall i | 0 <= i < |s| ensures Lei.InAlphabet(s[i]) && !IsVowelLike(s[i]) {
        assert s[i] in s;
      }
    }
  }

  /** Other codes are of letters and digits. */
  lemma {:induction false} CodeShape(s: string, max: nat)
    ensures IsValidCode(s, max) <==> s != "" && |s| <= max && Plain(s)
  {
    if IsValidCode(s, max) {
      forall c | c in s ensures Lei.InAlphabet(c) || IsLower(c) {
      }
    }
    if Plain(s) {
      forall i | 0 <= i < |s| ensures Lei.InAlphabet(s[i]) || IsLower(s[i]) {
        assert s[i] in s;
      }
    }
  }

  predicate Absent(s: Option<string>) { s.None? || Text.Blank(s.value) }

  /** Letters and digits, at most so many, up to padding. */
  predicate CodeOfAtMost(s: Option<string>, max: nat)
  {
    !Absent(s) && |Text.Strip(s.value)| <= max && Plain(Text.Strip(s.value))
  }

  /** Which field calls for which defect: a UPI may be absent from a termination report only,
      a package identifier unless the trade requires one, the other identifiers never. */
  lemma {:induction false} HasExactly(t: Trade, d: Defect)
    ensures Has(t, d) <==>
      match d
      case InvalidLei =>
        t.counterpartyIsLei && (Absent(t.counterparty) || !Lei.IsValidLei(Text.Strip(t.counterparty.value)))
      case InvalidCounterparty => !t.counterpartyIsLei && !CodeOfAtMost(t.counterparty, 72)
      case InvalidUti => Absent(t.uti) || !UtiLike(Text.Strip(t.uti.value))
      case InvalidUpi => !Absent(t.upi) && !UpiLike(Text.Strip(t.upi.value))
      case MissingUpi => Absent(t.upi) && !t.isTermination
      case InvalidPackage => !Absent(t.package) && !CodeOfAtMost(t.package, 100)
      case MissingPackage => Absent(t.package) && t.requiresPackage
  {
    hide Lei.IsValidLei, Text.Strip, Text.Blank, IsValidUti, IsValidUpi, IsValidCode, Plain, Upper;
    AbsentIsEmpty(t.counterparty);
    AbsentIsEmpty(t.uti);
    AbsentIsEmpty(t.upi);
    AbsentIsEmpty(t.package);
    EmptyIsNoLei();
    UtiShape(Normalised(t.uti));
    UpiShape(Normalised(t.upi));
    CodeShape(Normalised(t.counterparty), 72);
    CodeShape(Normalised(t.package), 100);
  }

  lemma {:induction false} AbsentIsEmpty(s: Option<string>)
    ensures Absent(s) <==> Normalised(s) == ""
  {
    if s.Some? {
      Text.StripBlank(s.value);
    }
  }

  lemma EmptyIsNoLei()
    ensures !Lei.IsValidLei("")
  {
  }

  function When(b: bool, d: Defect): (r: seq<Defect>)
    ensures forall e :: e in r <==> b && e == d
  {
    if b then [d] else []
  }

  function CounterpartyDefects(t: Trade): seq<Defect>
  {
    When(Has(t, InvalidLei), InvalidLei) + When(Has(t, InvalidCounterparty), InvalidCounterparty)
  }

  function UpiDefects(t: Trade): seq<Defect>
  {
    When(Has(t, InvalidUpi), InvalidUpi) + When(Has(t, MissingUpi), MissingUpi)
  }

  function PackageDefects(t: Trade): seq<Defect>
  {
    When(Has(t, InvalidPackage), InvalidPackage) + When(Has(t, MissingPackage), MissingPackage)
  }

  /** All defects of a trade, in the order they are reported. */
  function Defects(t: Trade): seq<Defect>
  {
    CounterpartyDefects(t) + When(Has(t, InvalidUti), InvalidUti) + UpiDefects(t) + PackageDefects(t)
  }

  /** Place of a defect in the order of the checks. */
  function Rank(d: Defect): nat
  {
    match d
    case InvalidLei => 0
    case InvalidCounterparty => 1
    case InvalidUti => 2
    case InvalidUpi => 3
    case MissingUpi => 4
    case InvalidPackage => 5
    case MissingPackage => 6
  }

  /** Each defect once, in the order of the checks, from place lo up to hi. */
  predicate InOrder(ds: seq<Defect>, lo: nat, hi: nat)
  {
    && (forall i :: 0 <= i < |ds| ==> lo <= Rank(ds[i]) < hi)
    && (forall i, j :: 0 <= i < j < |ds| ==> Rank(ds[i]) < Rank(ds[j]))
  }

  lemma {:induction false} InOrderJoin(a: seq<Defect>, b: seq<Defect>, lo: nat, mid: nat, hi: nat)
    requires InOrder(a, lo, mid) && InOrder(b, mid, hi) && lo <= mid <= hi
    ensures InOrder(a + b, lo, hi)
  {
    hide Rank;
  }

  lemma WhenInOrder(b: bool, d: Defect)
    ensures InOrder(When(b, d), Rank(d), Rank(d) + 1)
  {
  }

  lemma {:induction false} DefectsInOrder(t: Trade)
    ensures InOrder(Defects(t), 0, 7)
  {
    hide Has, When, InOrder;
    forall d: Defect ensures InOrder(When(Has(t, d), d), Rank(d), Rank(d) + 1) {
      WhenInOrder(Has(t, d), d);
    }
    InOrderJoin(When(Has(t, InvalidLei), InvalidLei), When(Has(t, InvalidCounterparty), InvalidCounterparty), 0, 1, 2);
    InOrderJoin(When(Has(t, InvalidUpi), InvalidUpi), When(Has(t, MissingUpi), MissingUpi), 3, 4, 5);
    InOrderJoin(When(Has(t, InvalidPackage), InvalidPackage), When(Has(t, MissingPackage), MissingPackage), 5, 6, 7);
    var first := CounterpartyDefects(t) + When(Has(t, InvalidUti), InvalidUti);
    InOrderJoin(CounterpartyDefects(t), When(Has(t, InvalidUti), InvalidUti), 0, 2, 3);
    InOrderJoin(first, UpiDefects(t), 0, 3, 5);
    InOrderJoin(first + UpiDefects(t), PackageDefects(t), 0, 5, 7);
  }

  lemma {:induction false} PairPresent(t: Trade, a: Defect, b: Defect, d: Defect)
    ensures d in When(Has(t, a), a) + When(Has(t, b), b) <==> Has(t, d) && (d == a || d == b)
  {
    hide Has, When;
  }

  lemma {:induction false} DefectPresent(t: Trade, d: Defect)
    ensures d in Defects(t) <==> Has(t, d)
  {
    hide Has, When;
    PairPresent(t, InvalidLei, InvalidCounterparty, d);
    PairPresent(t, InvalidUpi, MissingUpi, d);
    PairPresent(t, InvalidPackage, MissingPackage, d);
  }

  /** The defects reported are those present, each once and in the order of the checks. */
  lemma {:induction false} DefectsAreExact(t: Trade)
    ensures forall d :: d in Defects(t) <==> Has(t, d)
    ensures Defects(t) == [] <==> forall d :: !Has(t, d)
    ensures forall i, j :: 0 <= i < j < |Defects(t)| ==> Rank(Defects(t)[i]) < Rank(Defects(t)[j])
  {
    hide Has, Rank, Defects;
    DefectsInOrder(t);
    forall d ensures d in Defects(t) <==> Has(t, d) {
      DefectPresent(t, d);
    }
    if Defects(t) != [] {
      assert Has(t, Defects(t)[0]);
    }
  }

  method CheckCounterparty(t: Trade) returns (defects: seq<Defect>)
    ensures defects == CounterpartyDefects(t)
  {
    defects := [];
    var counterparty := Normalised(t.counterparty);
    if t.counterpartyIsLei {
      if !Lei.IsValidLei(counterparty) {
        defects := defects + [InvalidLei];
      }
    } else if !IsValidCode(counterparty, NON_LEI_MAX_LENGTH) {
      defects := defects + [InvalidCounterparty];
    }
  }

  method CheckUpi(t: Trade) returns (defects: seq<Defect>)
    ensures defects == UpiDefects(t)
  {
    defects := [];
    var upi := Normalised(t.upi);
    if upi != "" {
      if !IsValidUpi(upi) {
        defects := defects + [InvalidUpi];
      }
    } else if !t.isTermination {
      defects := defects + [MissingUpi];
    }
  }

  method CheckPackage(t: Trade) returns (defects: seq<Defect>)
    ensures defects == PackageDefects(t)
  {
    defects := [];
    var package := Normalised(t.package);
    if package != "" {
      if !IsValidCode(package, PACKAGE_MAX_LENGTH) {
        defects := defects + [InvalidPackage];
      }
    } else if t.requiresPackage {
      defects := defects + [MissingPackage];
    }
  }

  method FindDefects(t: Trade) returns (defects: seq<Defect>)
    ensures defects == Defects(t)
  {
    defects := CheckCounterparty(t);
    if !IsValidUti(Normalised(t.uti)) {
      defects := defects + [InvalidUti];
    }
    var upiDefects := CheckUpi(t);
    var packageDefects := CheckPackage(t);
    defects := defects + upiDefects + packageDefects;
  }

  method CheckDeadline(t: Trade, reportingDate: int, holidays: set<int>) returns (deadline: int, late: bool)
    requires t.tradeDate <= reportingDate
    ensures IsDeadline(t.tradeDate, DeadlineDays(t), holidays, deadline)
    ensures late <==> deadline < reportingDate
    ensures late <==> IsLate(t, reportingDate, holidays)
  {
    var added := AddBusinessDays(t.tradeDate, DeadlineDays(t), holidays);
    deadline := added.value;
    late := reportingDate > deadline;
    if t.tradeDate < reportingDate {
      BeforeDeadline(t.tradeDate, DeadlineDays(t), holidays, deadline, reportingDate - 1);
    }
  }

  /** A report is late when its whole allowance of business days ended before the day it
      is made on. */
  ghost predicate IsLate(t: Trade, reportingDate: int, holidays: set<int>)
  {
    t.tradeDate < reportingDate && Elapsed(t.tradeDate, reportingDate - 1, holidays) >= DeadlineDays(t)
  }

  method ValidateReport(t: Trade, reportingDate: int, holidays: set<int>, unavailable: bool) returns (r: Result<Record>)
    ensures r.Failure? <==> reportingDate < t.tradeDate
    ensures r.Success? ==>
      && (forall d :: d in r.value.defects <==> Has(t, d)) && InOrder(r.value.defects, 0, 7)
      && (r.value.ready <==> forall d :: !Has(t, d))
      && IsDeadline(t.tradeDate, if t.requiresPackage && !t.isFxSwapLeg then 4 else 2, holidays, r.value.deadline)
      && (r.value.late <==> r.value.deadline < reportingDate)
      && (r.value.late <==> IsLate(t, reportingDate, holidays))
      && (r.value.outageReliefMayApply <==> r.value.late && unavailable)
  {
    if reportingDate < t.tradeDate {
      return Failure;
    }
    var defects := FindDefects(t);
    DefectsAreExact(t);
    DefectsInOrder(t);
    var deadline, late := CheckDeadline(t, reportingDate, holidays);
    return Success(Record(defects == [], late, defects, deadline, late && unavailable));
  }

  /** Naming more holidays can clear a report of lateness, never make it late. */
  lemma {:induction false} OmittedHolidaysOverstateLateness(
      t: Trade, reportingDate: int, fewer: set<int>, more: set<int>)
    requires fewer <= more && IsLate(t, reportingDate, more)
    ensures IsLate(t, reportingDate, fewer)
  {
    ElapsedUnderMoreHolidays(t.tradeDate, reportingDate - 1, fewer, more);
  }
}
