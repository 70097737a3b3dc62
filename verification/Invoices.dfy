/**
 GST invoices (backend/services/invoices.py): the inclusive tax split, refund adjustment, the
 printed number, and first issues as interleaved transactions.

 Money is in cents and tax rates in hundredths of a percent.
 */
module Invoices {
  import opened Money
  import opened Tariffs

  // ------------------------------------------------------------------- the tax split

  /** The exact value before tax of an amount that includes it. */
  function BeforeTax(total: int, rate: nat): real {
    total as real * 10000.0 / (10000 + rate) as real
  }

  function TaxableOf(total: int, rate: nat): int {
    ToMoney(BeforeTax(Clamp(total), rate))
  }

  function TaxOf(total: int, rate: nat): int {
    Clamp(Clamp(total) - TaxableOf(total, rate))
  }

  lemma BeforeTaxBounds(total: nat, rate: nat)
    ensures 0.0 <= BeforeTax(total, rate) <= total as real
    ensures BeforeTax(total, rate) * (10000 + rate) as real == total as real * 10000.0
  {
    var x, d := total as real, (10000 + rate) as real;
    Product(x, d - 10000.0);
    if x - BeforeTax(total, rate) < 0.0 {
      NegativeProduct(x - BeforeTax(total, rate), d);
      assert false;
    }
  }

  lemma Product(x: real, y: real)
    requires 0.0 <= x && 0.0 <= y
    ensures 0.0 <= x * y
  {
  }

  lemma NegativeProduct(x: real, y: real)
    requires x < 0.0 < y
    ensures x * y < 0.0
  {
  }

  /**
   The two parts foot to the total, neither is negative, and the tax is the rate on the value to
   half a cent each way.
   */
  lemma SplitFoots(total: nat, rate: nat)
    requires total <= MAX_MONEY
    ensures 0 <= TaxableOf(total, rate) <= total && 0 <= TaxOf(total, rate)
    ensures TaxableOf(total, rate) + TaxOf(total, rate) == total
    ensures -0.5 <= TaxableOf(total, rate) as real - BeforeTax(total, rate) <= 0.5
    ensures -0.5 <= TaxOf(total, rate) as real - (total as real - BeforeTax(total, rate)) <= 0.5
    ensures rate == 0 ==> TaxOf(total, rate) == 0
  {
    BeforeTaxBounds(total, rate);
    ToMoneyMonotone(0.0, BeforeTax(total, rate));
    ToMoneyMonotone(BeforeTax(total, rate), total as real);
    ToMoneyOfCents(total);
    ToMoneyOfCents(0);
    ToMoneyError(BeforeTax(total, rate));
  }

  // -------------------------------------------------------------- the printed number

  function Digit(d: nat): char
    requires d < 10
  {
    ['0', '1', '2', '3', '4', '5', '6', '7', '8', '9'][d]
  }

  function Decimal(n: nat): (s: string)
    ensures s != []
  {
    if n < 10 then [Digit(n)] else Decimal(n / 10) + [Digit(n % 10)]
  }

  function Padded(n: nat, width: nat): string
    decreases width
  {
    if |Decimal(n)| >= width then Decimal(n) else Zeros(width - |Decimal(n)|) + Decimal(n)
  }

  function Zeros(n: nat): (s: string)
    ensures |s| == n
  {
    if n == 0 then [] else ['0'] + Zeros(n - 1)
  }

  function DigitValue(c: char): nat {
    if '0' <= c <= '9' then c as int - '0' as int else 0
  }

  function Value(s: string): nat {
    if s == [] then 0 else 10 * Value(s[..|s| - 1]) + DigitValue(s[|s| - 1])
  }

  lemma DigitReadsBack(d: nat)
    requires d < 10
    ensures DigitValue(Digit(d)) == d && Digit(d) != '-'
  {
  }

  /** Reading a printed number back gives the number, however many digits it has. */
  lemma {:induction false} DecimalReadsBack(n: nat)
    ensures Value(Decimal(n)) == n && '-' !in Decimal(n)
  {
    DigitReadsBack(n % 10);
    if n >= 10 {
      DecimalReadsBack(n / 10);
      assert Decimal(n)[..|Decimal(n)| - 1] == Decimal(n / 10);
    } else {
      assert Decimal(n)[..0] == [];
    }
  }

  lemma {:induction false} PaddingIsSilent(k: nat, s: string)
    ensures Value(Zeros(k) + s) == Value(s)
    ensures '-' !in Zeros(k)
  {
    if s == [] {
      assert Zeros(k) + s == Zeros(k);
      ZerosAreZero(k);
    } else {
      PaddingIsSilent(k, s[..|s| - 1]);
      assert (Zeros(k) + s)[..k + |s| - 1] == Zeros(k) + s[..|s| - 1];
    }
  }

  lemma {:induction false} ZerosAreZero(k: nat)
    ensures Value(Zeros(k)) == 0 && forall i :: 0 <= i < k ==> Zeros(k)[i] == '0'
  {
    if k > 0 {
      ZerosAreZero(k - 1);
      assert Zeros(k)[..k - 1] == Zeros(k - 1);
    }
  }

  lemma PaddedReadsBack(n: nat, width: nat)
    ensures Value(Padded(n, width)) == n
  {
    DecimalReadsBack(n);
    if |Decimal(n)| < width {
      PaddingIsSilent(width - |Decimal(n)|, Decimal(n));
    }
  }

  /** The financial year starts in April. */
  function YearOf(year: nat, month: nat): nat
    requires 1 <= year && 1 <= month <= 12
  {
    if month >= 4 then year else year - 1
  }

  /** The first of month `m1` of `y1` is no later than that of `m2` of `y2`. */
  predicate NoLater(y1: nat, m1: nat, y2: nat, m2: nat) {
    y1 < y2 || (y1 == y2 && m1 <= m2)
  }

  /** The first of April of `y` comes after a date of the first month and no later than one of the second. */
  predicate AprilBetween(y1: nat, m1: nat, y2: nat, m2: nat, y: nat) {
    !NoLater(y, 4, y1, m1) && NoLater(y, 4, y2, m2)
  }

  /** Two dates, in order, share a financial year exactly when no first of April lies between them. */
  lemma YearTurnsInApril(y1: nat, m1: nat, y2: nat, m2: nat)
    requires 1 <= y1 && 1 <= m1 <= 12 && 1 <= y2 && 1 <= m2 <= 12 && NoLater(y1, m1, y2, m2)
    ensures YearOf(y1, m1) == YearOf(y2, m2) <==> forall y :: !AprilBetween(y1, m1, y2, m2, y)
  {
    if YearOf(y1, m1) != YearOf(y2, m2) {
      assert AprilBetween(y1, m1, y2, m2, YearOf(y2, m2));
    }
  }

  /** The start year and the last two digits of the next. */
  function YearLabel(start: nat): string {
    Decimal(start) + "-" + LastTwo(Decimal(start + 1))
  }

  function LastTwo(s: string): string {
    if |s| >= 2 then s[|s| - 2..] else s
  }

  function PrefixOf(tenant: nat, custom: Option<string>): string {
    if custom.Some? && custom.value != [] then custom.value else "INV" + Decimal(tenant)
  }

  function Printed(prefix: string, year: nat, serial: nat): string {
    prefix + "-" + YearLabel(year) + "-" + Padded(serial, 5)
  }

  function Number(tenant: nat, custom: Option<string>, year: nat, serial: nat): string {
    Printed(PrefixOf(tenant, custom), year, serial)
  }

  /** Padding fills up with zeros to the width, and leaves longer numbers alone. */
  lemma PaddedIsWide(n: nat, width: nat)
    ensures |Padded(n, width)| == if |Decimal(n)| < width then width else |Decimal(n)|
    ensures exists zeros :: AllZeros(zeros) && Padded(n, width) == zeros + Decimal(n)
  {
    if |Decimal(n)| < width {
      ZerosAreZero(width - |Decimal(n)|);
      assert AllZeros(Zeros(width - |Decimal(n)|));
    } else {
      assert AllZeros([]) && Padded(n, width) == [] + Decimal(n);
    }
  }

  predicate AllZeros(s: string) {
    forall i :: 0 <= i < |s| ==> s[i] == '0'
  }

  lemma OneMoreDigit(n: nat, d: nat)
    requires 1 <= n && d < 10
    ensures Decimal(10 * n + d) == Decimal(n) + [Digit(d)]
  {
  }

  lemma SomeNumbers()
    ensures Decimal(7) == "7" && Decimal(1) == "1" && Decimal(2026) == "2026" && Decimal(2027) == "2027"
    ensures Decimal(12) == "12"
  {
    OneMoreDigit(2, 0);
    OneMoreDigit(20, 2);
    OneMoreDigit(202, 6);
    OneMoreDigit(202, 7);
    OneMoreDigit(1, 2);
  }

  lemma LongNumber()
    ensures Decimal(123456) == "123456"
  {
    SomeNumbers();
    OneMoreDigit(12, 3);
    OneMoreDigit(123, 4);
    OneMoreDigit(1234, 5);
    OneMoreDigit(12345, 6);
  }

  lemma FourZeros()
    ensures Zeros(4) == "0000"
  {
    ZerosAreZero(4);
  }

  lemma PrintedIs(prefix: string, year: nat, serial: nat, years: string, padded: string)
    requires YearLabel(year) == years && Padded(serial, 5) == padded
    ensures Printed(prefix, year, serial) == prefix + "-" + years + "-" + padded
  {
  }

  lemma LabelOf2026()
    ensures YearLabel(2026) == "2026-27"
  {
    SomeNumbers();
    assert LastTwo("2027") == "27";
    assert "2026" + "-" + "27" == "2026-27";
  }

  lemma PaddedExamples()
    ensures Padded(1, 5) == "00001" && Padded(123456, 5) == "123456"
  {
    SomeNumbers();
    LongNumber();
    FourZeros();
    assert "0000" + "1" == "00001";
  }

  /** A first invoice and a later one of the year from April 2026, with and without a prefix of the tenant's own. */
  lemma PrintedExamples()
    ensures Number(7, None, YearOf(2027, 3), 1) == "INV" + "7" + "-" + "2026-27" + "-" + "00001"
    ensures Number(7, Some(""), 2026, 1) == Number(7, None, 2026, 1)
    ensures Number(7, Some("ACME"), YearOf(2026, 4), 123456) == "ACME" + "-" + "2026-27" + "-" + "123456"
  {
    SomeNumbers();
    LabelOf2026();
    PaddedExamples();
    PrintedIs("INV" + "7", 2026, 1, "2026-27", "00001");
    PrintedIs("ACME", 2026, 123456, "2026-27", "123456");
  }

  // ------------------------------------------------------------- reading a number back

  /** Length of what stands before the last dash. */
  function LastDash(s: string): (i: nat)
    ensures i <= |s|
  {
    if s == [] then 0 else if s[|s| - 1] == '-' then |s| - 1 else LastDash(s[..|s| - 1])
  }

  function Before(s: string): string {
    s[..LastDash(s)]
  }

  function After(s: string): string {
    if LastDash(s) < |s| then s[LastDash(s) + 1..] else []
  }

  lemma {:induction false} FindLastDash(a: string, b: string)
    requires '-' !in b
    ensures LastDash(a + "-" + b) == |a|
  {
    var s := a + "-" + b;
    if b != [] {
      var n := |b| - 1;
      assert s[|s| - 1] == b[n] && s[..|s| - 1] == a + "-" + b[..n];
      FindLastDash(a, b[..n]);
    }
  }

  lemma CutAtLastDash(a: string, b: string)
    requires '-' !in b
    ensures Before(a + "-" + b) == a && After(a + "-" + b) == b
  {
    FindLastDash(a, b);
    var s := a + "-" + b;
    assert s[..|a|] == a && s[|a| + 1..] == b;
  }

  function PrefixIn(s: string): string {
    Before(Before(Before(s)))
  }

  function YearIn(s: string): nat {
    Value(After(Before(Before(s))))
  }

  function SerialIn(s: string): nat {
    Value(After(s))
  }

  lemma CutThrice(a: string, b: string, c: string, d: string)
    requires '-' !in b && '-' !in c && '-' !in d
    ensures var s := a + "-" + (b + "-" + c) + "-" + d;
            After(s) == d && After(Before(Before(s))) == b && Before(Before(Before(s))) == a
  {
    assert a + "-" + (b + "-" + c) == a + "-" + b + "-" + c;
    CutAtLastDash(a + "-" + (b + "-" + c), d);
    CutAtLastDash(a + "-" + b, c);
    CutAtLastDash(a, b);
  }

  lemma PaddedHasNoDash(n: nat, width: nat)
    ensures '-' !in Padded(n, width)
  {
    DecimalReadsBack(n);
    if |Decimal(n)| < width {
      PaddingIsSilent(width - |Decimal(n)|, Decimal(n));
    }
  }

  lemma PrintedPieces(prefix: string, year: nat, serial: nat)
    ensures var s := Printed(prefix, year, serial);
            After(s) == Padded(serial, 5) && After(Before(Before(s))) == Decimal(year) && PrefixIn(s) == prefix
  {
    DecimalReadsBack(year);
    DecimalReadsBack(year + 1);
    PaddedHasNoDash(serial, 5);
    CutThrice(prefix, Decimal(year), LastTwo(Decimal(year + 1)), Padded(serial, 5));
  }

  /**
   A printed number reads back to its prefix, dashes and all, its financial year and its serial,
   past five digits too.
   */
  lemma NumberReadsBack(prefix: string, year: nat, serial: nat)
    ensures var s := Printed(prefix, year, serial);
            PrefixIn(s) == prefix && YearIn(s) == year && SerialIn(s) == serial
  {
    PrintedPieces(prefix, year, serial);
    DecimalReadsBack(year);
    PaddedReadsBack(serial, 5);
  }

  /** Numbers are the same exactly when prefix, financial year and serial are, whatever prefixes were chosen. */
  lemma NumbersEqualIff(t1: nat, c1: Option<string>, y1: nat, n1: nat, t2: nat, c2: Option<string>, y2: nat, n2: nat)
    ensures Number(t1, c1, y1, n1) == Number(t2, c2, y2, n2) <==>
              PrefixOf(t1, c1) == PrefixOf(t2, c2) && y1 == y2 && n1 == n2
  {
    NumberReadsBack(PrefixOf(t1, c1), y1, n1);
    NumberReadsBack(PrefixOf(t2, c2), y2, n2);
  }

  /** Default prefixes tell tenants apart, and a custom one meets a default one only by spelling it. */
  lemma PrefixesEqualIff(t1: nat, t2: nat)
    ensures PrefixOf(t1, None) == PrefixOf(t2, None) <==> t1 == t2
  {
    DecimalReadsBack(t1);
    DecimalReadsBack(t2);
    assert PrefixOf(t1, None)[3..] == Decimal(t1) && PrefixOf(t2, None)[3..] == Decimal(t2);
  }

  /** Among tenants without a custom prefix, a number identifies tenant, financial year and serial. */
  lemma NumberIsInjective(t1: nat, y1: nat, n1: nat, t2: nat, y2: nat, n2: nat)
    requires Number(t1, None, y1, n1) == Number(t2, None, y2, n2)
    ensures t1 == t2 && y1 == y2 && n1 == n2
  {
    NumbersEqualIff(t1, None, y1, n1, t2, None, y2, n2);
    PrefixesEqualIff(t1, t2);
  }

  /** A custom prefix can print another tenant's numbers: it need only spell the default one. */
  lemma CustomPrefixCanCollide(tenant: nat, other: nat, year: nat, n: nat)
    ensures Number(tenant, Some("INV" + Decimal(other)), year, n) == Number(other, None, year, n)
  {
  }

  // ------------------------------------------------------------------------ issuing

  datatype Session = Session(tenant: nat, spent: int, finished: bool)

  /** An issued invoice; `prefix`, `year` and `serial` are the parts its number was printed from. */
  datatype Invoice = Invoice(tenant: nat, session: int, number: string, prefix: string, year: nat, serial: nat,
                             total: int, taxable: int, rate: nat, tax: int)

  datatype Books = Books(prefixes: map<nat, Option<string>>, nextSerial: map<nat, nat>, invoices: seq<Invoice>)

  function FindSession(invoices: seq<Invoice>, session: int): Option<nat> {
    if invoices == [] then None else
    var n := |invoices| - 1;
    if invoices[n].session == session then Some(n) else FindSession(invoices[..n], session)
  }

  predicate NumberTaken(invoices: seq<Invoice>, number: string) {
    exists i :: 0 <= i < |invoices| && invoices[i].number == number
  }

  predicate Invoiceable(session: Session) {
    session.finished && Clamp(session.spent) > 0
  }

  /** The invoice a request drafts while it holds the tenant's row. */
  function Drafted(b: Books, id: int, session: Session, year: nat, rate: nat): Invoice
    requires session.tenant in b.prefixes && session.tenant in b.nextSerial
  {
    var serial := b.nextSerial[session.tenant];
    var custom := b.prefixes[session.tenant];
    Invoice(session.tenant, id, Number(session.tenant, custom, year, serial),
            PrefixOf(session.tenant, custom), year, serial,
            Clamp(session.spent), TaxableOf(session.spent, rate), rate, TaxOf(session.spent, rate))
  }

  /** Committing inserts the invoice and bumps the counter, or on a repeated session or number neither. */
  function Post(b: Books, invoice: Invoice): Books {
    if FindSession(b.invoices, invoice.session).Some? || NumberTaken(b.invoices, invoice.number) then b
    else if invoice.tenant !in b.nextSerial then b
    else b.(invoices := b.invoices + [invoice],
            nextSerial := b.nextSerial[invoice.tenant := b.nextSerial[invoice.tenant] + 1])
  }

  /** An invoice re-derived for all refunds so far, at the rate it was issued at. */
  function Adjusted(invoice: Invoice, spent: int, refunded: int): Invoice {
    var kept := Clamp(spent) - Clamp(refunded);
    var total := Clamp(if kept < 0 then 0 else kept);
    invoice.(total := total, taxable := TaxableOf(total, invoice.rate), tax := TaxOf(total, invoice.rate))
  }

  function AdjustIn(b: Books, id: int, spent: int, refunded: int): Books {
    var i := FindSession(b.invoices, id);
    if i.Some? && i.value < |b.invoices|
    then b.(invoices := b.invoices[i.value := Adjusted(b.invoices[i.value], spent, refunded)])
    else b
  }

  /** Adjusting depends on the refunds to date alone: not on how often it ran, nor on what it found. */
  lemma AdjustForgetsThePast(invoice: Invoice, spent: int, before: int, refunded: int)
    ensures Adjusted(Adjusted(invoice, spent, before), spent, refunded) == Adjusted(invoice, spent, refunded)
  {
  }

  /**
   An adjusted invoice foots at its own rate, shows what was kept, and keeps its identity; with no
   refund it is as issued.
   */
  lemma AdjustFoots(b: Books, id: int, session: Session, year: nat, rate: nat, refunded: nat)
    requires session.tenant in b.prefixes && session.tenant in b.nextSerial
    requires Invoiceable(session) && session.spent <= MAX_MONEY && refunded <= MAX_MONEY
    ensures var issued := Drafted(b, id, session, year, rate);
            var now := Adjusted(issued, session.spent, refunded);
            && now.taxable + now.tax == now.total == (if refunded < session.spent then session.spent - refunded else 0)
            && 0 <= now.taxable && 0 <= now.tax
            && now.number == issued.number && now.session == issued.session && now.rate == rate
            && (refunded == 0 ==> now == issued)
  {
    SplitFoots(if refunded < session.spent then session.spent - refunded else 0, rate);
  }

  // ------------------------------------------------------------------- the machine

  datatype Phase =
    | Idle
    | Checked(session: int)
    | Locked(invoice: Invoice)

  datatype State = State(sessions: map<int, Session>, books: Books, requests: seq<Phase>)

  datatype Step =
    | Check(t: nat, session: int)
    | Lock(t: nat, year: nat, rate: nat)
    | Commit(t: nat)
    | Rollback(t: nat)
    | SetPrefix(tenant: nat, custom: Option<string>)
    | Adjust(session: int, refunded: int)

  predicate HoldsTenant(s: State, t: nat, tenant: nat) {
    t < |s.requests| && s.requests[t].Locked? && s.requests[t].invoice.tenant == tenant
  }

  /** One step; Check is the unlocked look for an existing invoice, stale by the time of Lock. */
  function Next(s: State, step: Step): State {
    match step
    case Check(t, id) =>
      if t < |s.requests| && s.requests[t].Idle? && FindSession(s.books.invoices, id).None?
         && id in s.sessions && Invoiceable(s.sessions[id])
      then s.(requests := s.requests[t := Checked(id)]) else s
    case Lock(t, year, rate) =>
      if t >= |s.requests| || !s.requests[t].Checked? || s.requests[t].session !in s.sessions then s else
      var id := s.requests[t].session;
      var tenant := s.sessions[id].tenant;
      if exists u :: 0 <= u < |s.requests| && HoldsTenant(s, u, tenant) then s else
      if tenant !in s.books.prefixes || tenant !in s.books.nextSerial then s.(requests := s.requests[t := Idle]) else
      s.(requests := s.requests[t := Locked(Drafted(s.books, id, s.sessions[id], year, rate))])
    case Commit(t) =>
      if t < |s.requests| && s.requests[t].Locked?
      then s.(books := Post(s.books, s.requests[t].invoice), requests := s.requests[t := Idle]) else s
    case Rollback(t) =>
      if t < |s.requests| then s.(requests := s.requests[t := Idle]) else s
    case SetPrefix(tenant, custom) =>
      if tenant in s.books.prefixes then s.(books := s.books.(prefixes := s.books.prefixes[tenant := custom])) else s
    case Adjust(id, refunded) =>
      if id in s.sessions then s.(books := AdjustIn(s.books, id, s.sessions[id].spent, refunded)) else s
  }

  function Run(s: State, steps: seq<Step>): State {
    if steps == [] then s else Next(Run(s, steps[..|steps| - 1]), steps[|steps| - 1])
  }

  function Opening(sessions: map<int, Session>, prefixes: map<nat, Option<string>>, requests: nat): State {
    State(sessions, Books(prefixes, map t | t in prefixes :: 1, []), seq(requests, _ => Idle))
  }

  function CountOf(invoices: seq<Invoice>, tenant: nat): nat {
    if invoices == [] then 0 else
    CountOf(invoices[..|invoices| - 1], tenant) + if invoices[|invoices| - 1].tenant == tenant then 1 else 0
  }

  predicate NextInLine(invoices: seq<Invoice>, i: nat)
    requires i < |invoices|
  {
    invoices[i].serial == 1 + CountOf(invoices[..i], invoices[i].tenant)
  }

  /** Serials count each tenant's invoices, and the counters stand at the next. */
  ghost predicate Gapless(b: Books) {
    && (forall i :: 0 <= i < |b.invoices| ==> NextInLine(b.invoices, i))
    && (forall t :: t in b.nextSerial ==> b.nextSerial[t] == 1 + CountOf(b.invoices, t))
    && b.nextSerial.Keys == b.prefixes.Keys
  }

  ghost predicate OneEach(invoices: seq<Invoice>) {
    forall i, j :: 0 <= i < j < |invoices| ==>
      invoices[i].session != invoices[j].session && invoices[i].number != invoices[j].number
  }

  predicate AsPrinted(invoice: Invoice) {
    invoice.number == Printed(invoice.prefix, invoice.year, invoice.serial)
  }

  /** Every number, committed or drafted, is what its parts print. */
  ghost predicate AllPrinted(s: State) {
    && (forall i :: 0 <= i < |s.books.invoices| ==> AsPrinted(s.books.invoices[i]))
    && (forall t :: 0 <= t < |s.requests| && s.requests[t].Locked? ==> AsPrinted(s.requests[t].invoice))
  }

  ghost predicate Sound(s: State) {
    && Gapless(s.books)
    && OneEach(s.books.invoices)
    && (forall t, u, tenant :: HoldsTenant(s, t, tenant) && HoldsTenant(s, u, tenant) ==> t == u)
    && (forall t :: 0 <= t < |s.requests| && s.requests[t].Locked? ==>
          && s.requests[t].invoice.tenant in s.books.nextSerial
          && s.requests[t].invoice.serial == s.books.nextSerial[s.requests[t].invoice.tenant])
  }

  lemma {:induction false} FindSessionIsExact(invoices: seq<Invoice>, session: int)
    ensures FindSession(invoices, session).Some? ==>
              && FindSession(invoices, session).value < |invoices|
              && invoices[FindSession(invoices, session).value].session == session
    ensures FindSession(invoices, session).None? ==> forall i :: 0 <= i < |invoices| ==> invoices[i].session != session
  {
    if invoices != [] {
      FindSessionIsExact(invoices[..|invoices| - 1], session);
    }
  }

  lemma PostStaysGapless(b: Books, invoice: Invoice)
    requires Gapless(b) && OneEach(b.invoices) && invoice.tenant in b.nextSerial
    requires invoice.serial == b.nextSerial[invoice.tenant]
    ensures Gapless(Post(b, invoice)) && OneEach(Post(b, invoice).invoices)
  {
    var next, n := Post(b, invoice), |b.invoices|;
    FindSessionIsExact(b.invoices, invoice.session);
    if next != b {
      assert next.invoices[..n] == b.invoices;
      forall i | 0 <= i < |next.invoices| ensures NextInLine(next.invoices, i) {
        if i < n {
          assert next.invoices[..i] == b.invoices[..i];
          assert NextInLine(b.invoices, i);
        }
      }
    }
  }

  lemma CommitStaysSound(s: State, t: nat)
    requires Sound(s) && t < |s.requests| && s.requests[t].Locked?
    ensures Sound(Next(s, Commit(t)))
  {
    var next, mine := Next(s, Commit(t)), s.requests[t].invoice;
    PostStaysGapless(s.books, mine);
    assert HoldsTenant(s, t, mine.tenant);
    forall u, tenant | HoldsTenant(next, u, tenant) ensures HoldsTenant(s, u, tenant) && tenant != mine.tenant {
      assert HoldsTenant(s, u, tenant);
    }
    forall u | 0 <= u < |next.requests| && next.requests[u].Locked?
      ensures next.requests[u].invoice.serial == next.books.nextSerial[next.requests[u].invoice.tenant]
    {
      assert HoldsTenant(next, u, next.requests[u].invoice.tenant);
    }
  }

  lemma {:induction false} AdjustKeepsCounts(invoices: seq<Invoice>, i: nat, spent: int, refunded: int, tenant: nat)
    requires i < |invoices|
    ensures CountOf(invoices[i := Adjusted(invoices[i], spent, refunded)], tenant) == CountOf(invoices, tenant)
  {
    var n := |invoices| - 1;
    var next := invoices[i := Adjusted(invoices[i], spent, refunded)];
    if i < n {
      assert next[..n] == invoices[..n][i := Adjusted(invoices[i], spent, refunded)];
      AdjustKeepsCounts(invoices[..n], i, spent, refunded, tenant);
    } else {
      assert next[..n] == invoices[..n];
    }
  }

  lemma AdjustStaysGapless(b: Books, id: int, spent: int, refunded: int)
    requires Gapless(b) && OneEach(b.invoices)
    ensures Gapless(AdjustIn(b, id, spent, refunded)) && OneEach(AdjustIn(b, id, spent, refunded).invoices)
  {
    FindSessionIsExact(b.invoices, id);
    var found := FindSession(b.invoices, id);
    if found.Some? {
      var k := found.value;
      var next := AdjustIn(b, id, spent, refunded).invoices;
      forall t ensures CountOf(next, t) == CountOf(b.invoices, t) {
        AdjustKeepsCounts(b.invoices, k, spent, refunded, t);
      }
      forall i | 0 <= i < |next| ensures NextInLine(next, i) {
        assert NextInLine(b.invoices, i);
        if k < i {
          assert next[..i] == b.invoices[..i][k := Adjusted(b.invoices[k], spent, refunded)];
          AdjustKeepsCounts(b.invoices[..i], k, spent, refunded, next[i].tenant);
        } else {
          assert next[..i] == b.invoices[..i];
        }
      }
    }
  }

  lemma StepStaysSound(s: State, step: Step)
    requires Sound(s)
    ensures Sound(Next(s, step))
  {
    var next := Next(s, step);
    if step.Commit? && step.t < |s.requests| && s.requests[step.t].Locked? {
      CommitStaysSound(s, step.t);
    } else {
      if step.Adjust? && step.session in s.sessions {
        AdjustStaysGapless(s.books, step.session, s.sessions[step.session].spent, step.refunded);
      }
      forall u, tenant | HoldsTenant(next, u, tenant)
        ensures HoldsTenant(s, u, tenant)
                || (step.Lock? && step.t == u && forall v :: 0 <= v < |s.requests| ==> !HoldsTenant(s, v, tenant))
      {
      }
    }
  }

  lemma PostStaysPrinted(b: Books, invoice: Invoice)
    requires AsPrinted(invoice) && forall i :: 0 <= i < |b.invoices| ==> AsPrinted(b.invoices[i])
    ensures forall i :: 0 <= i < |Post(b, invoice).invoices| ==> AsPrinted(Post(b, invoice).invoices[i])
  {
  }

  lemma AdjustStaysPrinted(b: Books, id: int, spent: int, refunded: int)
    requires forall i :: 0 <= i < |b.invoices| ==> AsPrinted(b.invoices[i])
    ensures forall i :: 0 <= i < |AdjustIn(b, id, spent, refunded).invoices| ==>
              AsPrinted(AdjustIn(b, id, spent, refunded).invoices[i])
  {
  }

  lemma StepStaysPrinted(s: State, step: Step)
    requires AllPrinted(s)
    ensures AllPrinted(Next(s, step))
  {
    if step.Commit? && step.t < |s.requests| && s.requests[step.t].Locked? {
      PostStaysPrinted(s.books, s.requests[step.t].invoice);
    } else if step.Adjust? && step.session in s.sessions {
      AdjustStaysPrinted(s.books, step.session, s.sessions[step.session].spent, step.refunded);
    } else {
      assert Next(s, step).books.invoices == s.books.invoices;
    }
  }

  /**
   Over every interleaving a session has at most one invoice and no serial is skipped: a lost race
   gives its bump back.
   */
  lemma {:induction false} InvoicesStayGapless(sessions: map<int, Session>, prefixes: map<nat, Option<string>>,
      requests: nat, steps: seq<Step>)
    ensures Sound(Run(Opening(sessions, prefixes, requests), steps))
    ensures AllPrinted(Run(Opening(sessions, prefixes, requests), steps))
  {
    if steps != [] {
      InvoicesStayGapless(sessions, prefixes, requests, steps[..|steps| - 1]);
      StepStaysSound(Run(Opening(sessions, prefixes, requests), steps[..|steps| - 1]), steps[|steps| - 1]);
      StepStaysPrinted(Run(Opening(sessions, prefixes, requests), steps[..|steps| - 1]), steps[|steps| - 1]);
    }
  }

  predicate HasSerial(invoices: seq<Invoice>, i: nat, tenant: nat, k: nat) {
    i < |invoices| && invoices[i].tenant == tenant && invoices[i].serial == k
  }

  /** A tenant's serials are exactly 1 to the number of its invoices, each once. */
  lemma {:induction false} SerialsAreOneToN(invoices: seq<Invoice>, tenant: nat, k: nat)
    requires forall i :: 0 <= i < |invoices| ==> NextInLine(invoices, i)
    ensures 1 <= k <= CountOf(invoices, tenant) <==>
              exists i :: 0 <= i < |invoices| && HasSerial(invoices, i, tenant, k)
    ensures forall i, j :: HasSerial(invoices, i, tenant, k) && HasSerial(invoices, j, tenant, k) ==> i == j
  {
    if invoices != [] {
      var n := |invoices| - 1;
      var rest := invoices[..n];
      forall i | 0 <= i < n ensures NextInLine(rest, i) {
        assert NextInLine(invoices, i);
        assert rest[..i] == invoices[..i];
      }
      SerialsAreOneToN(rest, tenant, k);
      assert NextInLine(invoices, n);
      forall i: nat | i < n ensures HasSerial(rest, i, tenant, k) <==> HasSerial(invoices, i, tenant, k) {
      }
      if HasSerial(invoices, n, tenant, k) {
        assert k == CountOf(invoices, tenant);
      }
    }
  }

  /** Another tenant's invoice that was printed from the same parts. */
  predicate Taken(invoices: seq<Invoice>, i: nat, mine: Invoice) {
    && i < |invoices| && invoices[i].tenant != mine.tenant
    && invoices[i].prefix == mine.prefix && invoices[i].year == mine.year && invoices[i].serial == mine.serial
  }

  /**
   A commit is turned away exactly when its session has an invoice already or another tenant with
   the same prefix has used this serial in this financial year.
   */
  lemma CommitIff(s: State, t: nat)
    requires Sound(s) && AllPrinted(s) && t < |s.requests| && s.requests[t].Locked?
    ensures var mine := s.requests[t].invoice;
            Next(s, Commit(t)).books.invoices == s.books.invoices + [mine] <==>
            FindSession(s.books.invoices, mine.session).None? && forall i :: !Taken(s.books.invoices, i, mine)
  {
    var mine := s.requests[t].invoice;
    forall i: nat | i < |s.books.invoices|
      ensures s.books.invoices[i].number == mine.number <==> Taken(s.books.invoices, i, mine)
    {
      SameNumberIff(s, i, mine);
    }
    var next := Post(s.books, mine);
    assert |s.books.invoices + [mine]| != |s.books.invoices|;
    assert NumberTaken(s.books.invoices, mine.number) <==> exists i :: Taken(s.books.invoices, i, mine);
  }

  lemma SameNumberIff(s: State, i: nat, mine: Invoice)
    requires Gapless(s.books) && i < |s.books.invoices| && AsPrinted(s.books.invoices[i]) && AsPrinted(mine)
    requires mine.tenant in s.books.nextSerial && mine.serial == s.books.nextSerial[mine.tenant]
    ensures s.books.invoices[i].number == mine.number <==> Taken(s.books.invoices, i, mine)
  {
    var row := s.books.invoices[i];
    NumberReadsBack(row.prefix, row.year, row.serial);
    NumberReadsBack(mine.prefix, mine.year, mine.serial);
    if row.tenant == mine.tenant {
      SerialsAreOneToN(s.books.invoices, row.tenant, row.serial);
      assert HasSerial(s.books.invoices, i, row.tenant, row.serial);
    }
  }

  /** Printed without a custom prefix. */
  predicate Plain(invoice: Invoice) {
    invoice.prefix == PrefixOf(invoice.tenant, None)
  }

  /** Among tenants without custom prefixes a commit is turned away only by its own session's invoice. */
  lemma PlainCommitIff(s: State, t: nat)
    requires Sound(s) && AllPrinted(s) && t < |s.requests| && s.requests[t].Locked? && Plain(s.requests[t].invoice)
    requires forall i :: 0 <= i < |s.books.invoices| ==> Plain(s.books.invoices[i])
    ensures var mine := s.requests[t].invoice;
            Next(s, Commit(t)).books.invoices == s.books.invoices + [mine] <==>
              FindSession(s.books.invoices, mine.session).None?
  {
    var mine := s.requests[t].invoice;
    CommitIff(s, t);
    forall i: nat ensures !Taken(s.books.invoices, i, mine) {
      if i < |s.books.invoices| {
        PrefixesEqualIff(s.books.invoices[i].tenant, mine.tenant);
      }
    }
  }

  /**
   A first issue that meets no other goes through exactly when its session is finished, was billed
   something, has no invoice and belongs to a known tenant, and the number is free. The invoice is
   for the whole bill, under the tenant's next serial.
   */
  lemma FirstIssueIff(s: State, t: nat, id: int, year: nat, rate: nat)
    requires t < |s.requests| && forall u :: 0 <= u < |s.requests| ==> s.requests[u].Idle?
    requires id in s.sessions && s.sessions[id].spent <= MAX_MONEY && s.books.prefixes.Keys == s.books.nextSerial.Keys
    ensures var session, b := s.sessions[id], s.books;
            var after := Next(Next(Next(s, Check(t, id)), Lock(t, year, rate)), Commit(t)).books;
            if session.finished && session.spent > 0 && session.tenant in b.nextSerial
               && (forall i :: 0 <= i < |b.invoices| ==> b.invoices[i].session != id)
               && !NumberTaken(b.invoices,
                    Number(session.tenant, b.prefixes[session.tenant], year, b.nextSerial[session.tenant]))
            then
              && |after.invoices| == |b.invoices| + 1 && after.invoices[..|b.invoices|] == b.invoices
              && after.prefixes == b.prefixes
              && after.nextSerial == b.nextSerial[session.tenant := b.nextSerial[session.tenant] + 1]
              && var invoice := after.invoices[|b.invoices|];
                 && invoice.tenant == session.tenant && invoice.session == id && invoice.total == session.spent
                 && invoice.serial == b.nextSerial[session.tenant] && invoice.year == year && invoice.rate == rate
                 && invoice.number == Number(session.tenant, b.prefixes[session.tenant], year, invoice.serial)
                 && invoice.taxable + invoice.tax == invoice.total
            else after == b
  {
    FindSessionIsExact(s.books.invoices, id);
    if Invoiceable(s.sessions[id]) {
      SplitFoots(s.sessions[id].spent, rate);
    }
    var checked := Next(s, Check(t, id));
    assert forall u, tenant :: !HoldsTenant(checked, u, tenant);
  }

  /** A busy request or an invoiced session starts nothing; a rollback lets go; a new prefix is its tenant's only. */
  lemma OtherStepsDo(s: State, t: nat, id: int, tenant: nat, custom: Option<string>)
    requires t < |s.requests|
    ensures var invoiced := exists i :: 0 <= i < |s.books.invoices| && s.books.invoices[i].session == id;
            !s.requests[t].Idle? || invoiced ==> Next(s, Check(t, id)) == s
    ensures Next(s, Rollback(t)) == s.(requests := s.requests[t := Idle])
    ensures var b := s.books;
            Next(s, SetPrefix(tenant, custom)) ==
            if tenant in b.prefixes
            then s.(books := Books(b.prefixes[tenant := custom], b.nextSerial, b.invoices)) else s
  {
    FindSessionIsExact(s.books.invoices, id);
  }

  /** A refund reaches its session's invoice, and no other: that foots to what was kept, at its own rate. */
  lemma RefundReachesItsInvoice(s: State, id: int, refunded: nat, i: nat)
    requires id in s.sessions && i < |s.books.invoices| && s.books.invoices[i].session == id
    requires OneEach(s.books.invoices) && 0 <= s.sessions[id].spent <= MAX_MONEY && refunded <= MAX_MONEY
    ensures var was, after := s.books.invoices, Next(s, Adjust(id, refunded)).books.invoices;
            && |after| == |was| && (forall k :: 0 <= k < |was| && k != i ==> after[k] == was[k])
            && after[i] == was[i].(total := after[i].total, taxable := after[i].taxable, tax := after[i].tax)
            && after[i].total == (if refunded < s.sessions[id].spent then s.sessions[id].spent - refunded else 0)
            && after[i].taxable + after[i].tax == after[i].total
            && -0.5 <= after[i].taxable as real - BeforeTax(after[i].total, was[i].rate) <= 0.5
  {
    FindSessionIsExact(s.books.invoices, id);
    var kept := if refunded < s.sessions[id].spent then s.sessions[id].spent - refunded else 0;
    SplitFoots(kept, s.books.invoices[i].rate);
  }

  // -------------------------------------------------------------- the rows in place

  /** Counters and invoices, updated in place by one request at a time. */
  class Registry {
    var prefixes: map<nat, Option<string>>
    var nextSerial: map<nat, nat>
    var invoices: seq<Invoice>

    function Contents(): Books
      reads this
    {
      Books(prefixes, nextSerial, invoices)
    }

    constructor (prefixes: map<nat, Option<string>>)
      ensures Contents() == Books(prefixes, map t | t in prefixes :: 1, [])
      ensures Gapless(Contents()) && OneEach(invoices)
    {
      this.prefixes := prefixes;
      nextSerial := map t | t in prefixes :: 1;
      invoices := [];
    }

    /** The session's invoice: the existing one, or a new one under the next serial. */
    method IssueInvoiceForSession(id: int, session: Session, year: nat, rate: nat) returns (r: Option<Invoice>)
      requires Gapless(Contents()) && OneEach(invoices)
      modifies this
      ensures Gapless(Contents()) && OneEach(invoices)
      ensures r.Some? ==> r.value.session == id && r.value in invoices
      ensures FindSession(old(invoices), id).Some? ==> r.Some? && Contents() == old(Contents())
      ensures r.None? ==> Contents() == old(Contents())
      ensures FindSession(old(invoices), id).None? && r.Some? ==>
                && Invoiceable(session) && session.tenant in old(nextSerial) && session.tenant in old(prefixes)
                && r.value == Drafted(old(Contents()), id, session, year, rate)
                && invoices == old(invoices) + [r.value]
      ensures FindSession(old(invoices), id).None? && r.None? ==>
                || !Invoiceable(session) || session.tenant !in old(nextSerial)
                || NumberTaken(old(invoices), Drafted(old(Contents()), id, session, year, rate).number)
    {
      var existing := FindSession(invoices, id);
      FindSessionIsExact(invoices, id);
      if existing.Some? {
        return Some(invoices[existing.value]);
      }
      if !Invoiceable(session) || session.tenant !in nextSerial {
        return None;
      }
      var draft := Drafted(Contents(), id, session, year, rate);
      PostStaysGapless(Contents(), draft);
      var before := nextSerial;
      nextSerial := nextSerial[session.tenant := nextSerial[session.tenant] + 1];
      if NumberTaken(invoices, draft.number) {
        nextSerial := before;
        return None;
      }
      invoices := invoices + [draft];
      r := Some(draft);
    }

    /** Re-derive an issued invoice's money for the refunds approved so far. */
    method AdjustInvoiceForSessionRefund(id: int, spent: int, refunded: int) returns (r: Option<Invoice>)
      modifies this`invoices
      ensures Contents() == AdjustIn(old(Contents()), id, spent, refunded)
      ensures r.None? <==> FindSession(old(invoices), id).None?
      ensures r.Some? ==> r.value.session == id && r.value.total == r.value.taxable + r.value.tax
    {
      var i := FindSession(invoices, id);
      FindSessionIsExact(invoices, id);
      if i.None? {
        return None;
      }
      var invoice := invoices[i.value];
      var kept := Clamp(spent) - Clamp(refunded);
      var total := Clamp(if kept < 0 then 0 else kept);
      invoice := invoice.(total := total);
      invoice := invoice.(taxable := TaxableOf(total, invoice.rate), tax := TaxOf(total, invoice.rate));
      SplitFoots(total, invoice.rate);
      invoices := invoices[i.value := invoice];
      r := Some(invoice);
    }
  }
}
