/**
 The agreement arithmetic of src/lib/calculations.ts: days late, the
 interest, penalty, correction and fee percentages, the agreement total, the
 instalment value and the monthly instalment schedule. Amounts are exact
 reals; rates are percentages, as the form enters them.
 */
module Calculations {
  import opened Dates

  /**
   `calcularDiasAtraso`: whole days from the due date to the agreement date,
   rounded down, and never negative.
   */
  function DaysLate(due: DateTime, agreement: DateTime): (days: nat)
    ensures TimeValue(agreement) - TimeValue(due) < MsPerDay ==> days == 0
    ensures TimeValue(agreement) - TimeValue(due) >= 0 ==>
              days * MsPerDay <= TimeValue(agreement) - TimeValue(due) < (days + 1) * MsPerDay
  {
    var q := (TimeValue(agreement) - TimeValue(due)) / MsPerDay;
    if q < 0 then 0 else q
  }

  /** An agreement `n` days after the due date, at the same time of day, is `n` days late. */
  lemma DaysLateWholeDays(d: Date, n: nat, timeMs: int)
    ensures DaysLate(DateTime(d, timeMs), DateTime(Date(d.year, d.monthIndex, d.day + n), timeMs)) == n
  {
    var a, b := DateTime(d, timeMs), DateTime(Date(d.year, d.monthIndex, d.day + n), timeMs);
    assert DayNumber(b.date) == DayNumber(a.date) + n;
    assert TimeValue(b) - TimeValue(a) == n * MsPerDay;
  }

  /** An agreement on or before the due date is not late. */
  lemma DaysLateNotBefore(due: DateTime, agreement: DateTime)
    requires TimeValue(agreement) <= TimeValue(due)
    ensures DaysLate(due, agreement) == 0
  {
  }

  /** `base × (rate / 100)`: the shape of the penalty, correction, fee and breach penalty. */
  function Percent(base: real, rate: real): real {
    base * (rate / 100.0)
  }

  /** A percentage is additive in its base, one hundred per cent is the base, and no rate is nothing. */
  lemma PercentFacts(a: real, b: real, rate: real)
    ensures Percent(a + b, rate) == Percent(a, rate) + Percent(b, rate)
    ensures Percent(a, 100.0) == a
    ensures Percent(a, 0.0) == 0.0 && Percent(0.0, rate) == 0.0
    ensures a >= 0.0 && rate >= 0.0 ==> Percent(a, rate) >= 0.0
  {
  }

  /** A percentage grows with its base when the rate is not negative. */
  lemma PercentMonotone(a: real, b: real, rate: real)
    requires a <= b && rate >= 0.0
    ensures Percent(a, rate) <= Percent(b, rate)
  {
    assert Percent(b, rate) - Percent(a, rate) == (b - a) * (rate / 100.0);
  }

  /** `calcularMulta`: the late-payment penalty on the principal. */
  function Multa(principal: real, rate: real): (r: real)
    ensures r * 100.0 == principal * rate
    ensures principal >= 0.0 && rate >= 0.0 ==> r >= 0.0
    ensures principal >= 0.0 && 0.0 <= rate <= 100.0 ==> r <= principal
  {
    principal * (rate / 100.0)
  }

  /** `calcularCorrecaoMonetaria`: the monetary correction on the principal, from an accumulated index in per cent. */
  function Correcao(principal: real, index: real): (r: real)
    ensures r * 100.0 == principal * index
    ensures principal >= 0.0 && index >= 0.0 ==> r >= 0.0
    ensures principal >= 0.0 && 0.0 <= index <= 100.0 ==> r <= principal
  {
    principal * (index / 100.0)
  }

  /** `calcularHonorarios`: the lawyer's fee on the amount due before it. */
  function Honorarios(base: real, rate: real): (r: real)
    ensures r * 100.0 == base * rate
    ensures base >= 0.0 && rate >= 0.0 ==> r >= 0.0
    ensures base >= 0.0 && 0.0 <= rate <= 100.0 ==> r <= base
  {
    base * (rate / 100.0)
  }

  /** `calcularMultaQuebraAcordo`: the penalty for breaking the agreement, on the balance still owed. */
  function MultaQuebraAcordo(balance: real, rate: real): (r: real)
    ensures r * 100.0 == balance * rate
    ensures balance >= 0.0 && rate >= 0.0 ==> r >= 0.0
    ensures balance >= 0.0 && 0.0 <= rate <= 100.0 ==> r <= balance
  {
    balance * (rate / 100.0)
  }

  /**
   `calcularJurosMora`: interest pro rata die, a thirtieth of the monthly
   rate per day late. Thirty days late cost exactly one monthly rate.
   */
  function Juros(principal: real, monthlyRate: real, days: int): (r: real)
    ensures r * 3000.0 == principal * monthlyRate * (days as real)
    ensures days == 30 ==> r == Percent(principal, monthlyRate)
  {
    principal * ((monthlyRate / 30.0) / 100.0) * (days as real)
  }

  /** Interest is linear in the days late: none for no delay, a monthly rate for thirty days, additive over periods. */
  lemma JurosLinear(principal: real, monthlyRate: real, a: int, b: int)
    ensures Juros(principal, monthlyRate, 0) == 0.0
    ensures Juros(principal, monthlyRate, 30) == Percent(principal, monthlyRate)
    ensures Juros(principal, monthlyRate, a + b) == Juros(principal, monthlyRate, a) + Juros(principal, monthlyRate, b)
  {
    var k := Percent(principal, monthlyRate) / 30.0;
    assert Juros(principal, monthlyRate, a + b) == k * ((a + b) as real);
    assert Juros(principal, monthlyRate, a) == k * (a as real);
    assert Juros(principal, monthlyRate, b) == k * (b as real);
  }

  /** Interest does not fall as the delay grows, for a principal and rate that are not negative. */
  lemma JurosMonotone(principal: real, monthlyRate: real, a: int, b: int)
    requires principal >= 0.0 && monthlyRate >= 0.0 && a <= b
    ensures Juros(principal, monthlyRate, a) <= Juros(principal, monthlyRate, b)
  {
    var k := Percent(principal, monthlyRate) / 30.0;
    PercentFacts(principal, 0.0, monthlyRate);
    assert k >= 0.0;
    assert Juros(principal, monthlyRate, b) - Juros(principal, monthlyRate, a) == k * ((b - a) as real);
  }

  /** The simulation parameters; `multaQuebraAcordo` is only used once an agreement breaks. */
  datatype Parameters = Parameters(
    juros: real,
    multa: real,
    honorarios: real,
    multaQuebraAcordo: real,
    indiceCorrecao: real,
    numeroParcelas: int,
    entrada: real)

  /** One instalment of the schedule. */
  datatype Installment = Installment(number: int, dueDate: DateTime, amount: real)

  datatype CalculationResult = CalculationResult(
    principal: real,
    multa: real,
    juros: real,
    correcao: real,
    honorarios: real,
    totalAcordo: real,
    valorEntrada: real,
    numeroParcelas: int,
    valorParcela: real,
    installments: seq<Installment>)

  /** The number of instalments the loop `for (i = 1; i <= n; i++)` produces. */
  function Count(n: int): nat {
    if n > 0 then n else 0
  }

  /** Reference schedule: instalment `i` (from 1) falls `i` months after the agreement and carries `amount`. */
  function Schedule(agreement: DateTime, n: int, amount: real): (ps: seq<Installment>)
    requires ValidDateTime(agreement)
    ensures |ps| == Count(n)
  {
    seq(Count(n), i requires 0 <= i < Count(n) => Installment(i + 1, AddMonths(agreement, i + 1), amount))
  }

  /**
   `gerarParcelas`: for each `i` from 1 to `n`, a copy of the agreement date
   moved `i` months on with `setMonth`, and the instalment value.
   */
  method GerarParcelas(agreement: DateTime, n: int, amount: real) returns (ps: seq<Installment>)
    requires ValidDateTime(agreement)
    ensures |ps| == Count(n)
    ensures forall i :: 0 <= i < |ps| ==> ps[i].number == i + 1 && ps[i].amount == amount
    ensures forall i :: 0 <= i < |ps| ==>
              && MonthCount(ps[i].dueDate.date) == MonthCount(agreement.date) + i + 1
              && ps[i].dueDate.date.day == agreement.date.day
              && ps[i].dueDate.timeMs == agreement.timeMs
    ensures forall i :: 0 <= i < |ps| ==>
              DayNumber(ps[i].dueDate.date) == DayNumber(Date(agreement.date.year, agreement.date.monthIndex + i + 1, agreement.date.day))
    ensures ps == Schedule(agreement, n, amount)
  {
    ps := [];
    var i := 1;
    while i <= n
      invariant 1 <= i <= Count(n) + 1
      invariant ps == Schedule(agreement, i - 1, amount)
    {
      ps := ps + [Installment(i, AddMonths(agreement, i), amount)];
      i := i + 1;
    }
    ScheduleDates(agreement, n, amount);
  }

  /** Every instalment of the schedule keeps the day and the time of day, `i` months on. */
  lemma ScheduleDates(agreement: DateTime, n: int, amount: real)
    requires ValidDateTime(agreement)
    ensures var ps := Schedule(agreement, n, amount);
      forall i :: 0 <= i < |ps| ==>
        DayNumber(ps[i].dueDate.date) == DayNumber(Date(agreement.date.year, agreement.date.monthIndex + i + 1, agreement.date.day))
  {
    hide DayNumber;
    var ps := Schedule(agreement, n, amount);
    forall i | 0 <= i < |ps|
      ensures DayNumber(ps[i].dueDate.date) == DayNumber(Date(agreement.date.year, agreement.date.monthIndex + i + 1, agreement.date.day))
    {
      assert ps[i].dueDate == AddMonths(agreement, i + 1);
      AddMonthsDay(agreement, i + 1);
    }
  }

  /**
   Consecutive instalments name consecutive months. When the agreement's day
   exists in every month (the 28th or earlier) every instalment is a real
   calendar date, so they also fall in consecutive calendar months.
   */
  lemma ScheduleMonthly(agreement: DateTime, n: int, amount: real, i: nat)
    requires ValidDateTime(agreement) && i + 1 < Count(n)
    ensures var ps := Schedule(agreement, n, amount);
      MonthCount(ps[i + 1].dueDate.date) == MonthCount(ps[i].dueDate.date) + 1
    ensures var ps := Schedule(agreement, n, amount);
      agreement.date.day <= 28 ==> ValidDateTime(ps[i].dueDate) && ValidDateTime(ps[i + 1].dueDate)
  {
    var ps := Schedule(agreement, n, amount);
    MonthHasTwentyEightDays(ps[i].dueDate.date.year, ps[i].dueDate.date.monthIndex);
    MonthHasTwentyEightDays(ps[i + 1].dueDate.date.year, ps[i + 1].dueDate.date.monthIndex);
  }

  /**
   A day the target month lacks rolls over, so two instalments can land in
   the same calendar month: from 31 January 2024, the first instalment is
   31 February, which is 2 March, and the second is 31 March.
   */
  lemma ScheduleOverflow(agreement: DateTime, amount: real)
    requires agreement == DateTime(Date(2024, 0, 31), 0)
    ensures var ps := Schedule(agreement, 2, amount);
      && ps[0].dueDate.date == Date(2024, 1, 31) && !ValidDate(ps[0].dueDate.date)
      && DayNumber(ps[0].dueDate.date) == DayNumber(Date(2024, 2, 2))
      && ps[1].dueDate.date == Date(2024, 2, 31) && ValidDate(ps[1].dueDate.date)
  {
  }

  /** The value of each instalment: what is left after the down payment, split evenly, or 0 without instalments. */
  function InstallmentValue(total: real, entrada: real, n: int): (v: real)
    ensures n > 0 ==> entrada + (n as real) * v == total
    ensures n <= 0 ==> v == 0.0
  {
    if n > 0 then (total - entrada) / (n as real) else 0.0
  }

  /** `calcularTotalAcordo`. */
  function TotalAcordo(principal: real, due: DateTime, agreement: DateTime, params: Parameters): CalculationResult
    requires ValidDateTime(agreement)
  {
    var days := DaysLate(due, agreement);
    var multa := Multa(principal, params.multa);
    var juros := Juros(principal, params.juros, days);
    var correcao := Correcao(principal, params.indiceCorrecao);
    var subtotal := principal + multa + juros + correcao;
    var honorarios := Honorarios(subtotal, params.honorarios);
    var total := subtotal + honorarios;
    var parcela := InstallmentValue(total, params.entrada, params.numeroParcelas);
    CalculationResult(principal, multa, juros, correcao, honorarios, total,
                      params.entrada, params.numeroParcelas, parcela,
                      Schedule(agreement, params.numeroParcelas, parcela))
  }

  /**
   The parts of the total: the fee is charged on principal, penalty, interest
   and correction together, and the down payment plus the instalments pay
   the total exactly. The inputs are echoed back.
   */
  lemma TotalAcordoParts(principal: real, due: DateTime, agreement: DateTime, params: Parameters)
    requires ValidDateTime(agreement)
    ensures var r := TotalAcordo(principal, due, agreement, params);
      var subtotal := r.principal + r.multa + r.juros + r.correcao;
      && r.principal == principal && r.valorEntrada == params.entrada && r.numeroParcelas == params.numeroParcelas
      && r.multa == Percent(principal, params.multa)
      && r.correcao == Percent(principal, params.indiceCorrecao)
      && r.juros == Juros(principal, params.juros, DaysLate(due, agreement))
      && r.totalAcordo == subtotal + Percent(subtotal, params.honorarios)
      && |r.installments| == Count(params.numeroParcelas)
      && (forall i :: 0 <= i < |r.installments| ==> r.installments[i].amount == r.valorParcela)
      && (params.numeroParcelas > 0 ==> r.valorEntrada + (r.numeroParcelas as real) * r.valorParcela == r.totalAcordo)
  {
    var r := TotalAcordo(principal, due, agreement, params);
    var subtotal := r.principal + r.multa + r.juros + r.correcao;
    RatesArePercent(principal, params.multa);
    RatesArePercent(principal, params.indiceCorrecao);
    RatesArePercent(subtotal, params.honorarios);
    hide Multa, Correcao, Honorarios, Juros, Percent;
  }

  /** The four rate charges are percentages of their base. */
  lemma RatesArePercent(base: real, rate: real)
    ensures Multa(base, rate) == Percent(base, rate) && Correcao(base, rate) == Percent(base, rate)
    ensures Honorarios(base, rate) == Percent(base, rate) && MultaQuebraAcordo(base, rate) == Percent(base, rate)
  {
  }

  /** Without delay there is no interest: the total is principal, penalty and correction plus the fee. */
  lemma TotalAcordoOnTime(principal: real, due: DateTime, agreement: DateTime, params: Parameters)
    requires ValidDateTime(agreement) && TimeValue(agreement) <= TimeValue(due)
    ensures TotalAcordo(principal, due, agreement, params).juros == 0.0
  {
    JurosLinear(principal, params.juros, 0, 0);
  }

  /**
   A later agreement never costs less: with a principal and rates that are
   not negative, more days late give a total at least as large.
   */
  lemma TotalAcordoMonotone(principal: real, due: DateTime, a1: DateTime, a2: DateTime, params: Parameters)
    requires ValidDateTime(a1) && ValidDateTime(a2)
    requires principal >= 0.0 && params.juros >= 0.0 && params.honorarios >= 0.0
    requires DaysLate(due, a1) <= DaysLate(due, a2)
    ensures TotalAcordo(principal, due, a1, params).totalAcordo <= TotalAcordo(principal, due, a2, params).totalAcordo
  {
    TotalAcordoParts(principal, due, a1, params);
    TotalAcordoParts(principal, due, a2, params);
    JurosMonotone(principal, params.juros, DaysLate(due, a1), DaysLate(due, a2));
    hide *;
    var r1, r2 := TotalAcordo(principal, due, a1, params), TotalAcordo(principal, due, a2, params);
    var s1 := r1.principal + r1.multa + r1.juros + r1.correcao;
    var s2 := r2.principal + r2.multa + r2.juros + r2.correcao;
    assert s1 <= s2;
    PercentMonotone(s1, s2, params.honorarios);
  }
}
