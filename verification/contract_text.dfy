/** The computed insertions of the contract-text composer, in both
    implementations: `getContratoCompleto` (nodejs/src/lib/contracts.ts) and
    `get_contrato_completo` (contract_text.py). The fixed legal prose around
    the insertions is not modelled; each composer is modelled as the record
    of values it substitutes into the template. */
module ContractText {
  import opened Results
  import opened Text
  import opened Plans

  /** The company name used when none is configured. */
  const DefaultCompanyName: string := "MICAELA SAMPAIO"

  /** The computed part of the plan-choice clause: period label, tier label and monthly price. */
  datatype PlanChoice = PlanChoice(period: Period, tier: Tier, price: nat)

  /** Every value the composer substitutes into the template. */
  datatype Insertions = Insertions(
    companyName: string,
    companyNif: string,
    companyAddress: string,
    nome: string,
    nif: string,
    email: string,
    whatsapp: string,
    endereco: string,
    planChoice: PlanChoice,
    reschedule: string,
    discount: string,
    premiumBonus: string,
    loyaltyMonths: nat,
    date: string,
    contractNumber: string)

  const PremiumBonusLine: string := "- Vantagem para o Premium: 1 Consultoria de skincare personalizada inclusa."

  const AnualLabel: string := "PLANO ANUAL (12 Meses de Fidelidade - Desconto Extra)"

  const SemestralLabel: string := "PLANO SEMESTRAL (6 Meses de Fidelidade)"

  function PeriodLabel(p: Period): string {
    match p
    case Anual => AnualLabel
    case Semestral => SemestralLabel
  }

  /** The three lines of the plan-choice clause; `unit` is "EUR/mês" in
      TypeScript and "EUR/mes" in Python. */
  function PlanChoiceText(c: PlanChoice, unit: string): string {
    "O(A) CONTRATANTE optou por:\n[X] " + PeriodLabel(c.period)
      + "\n    (X) " + TierName(c.tier) + ": " + Dec(c.price) + " " + unit
  }

  /** JavaScript's `a || b` on an optional string: `b` when `a` is missing or empty. */
  function OrElse(a: Option<string>, b: string): (r: string)
    ensures r == b <==> (a.None? || a.value == "" || a.value == b)
    ensures r != b ==> a == Some(r)
  {
    if a.Some? && a.value != "" then a.value else b
  }

  // ---------------------------------------------------------------------------
  // TypeScript composer
  // ---------------------------------------------------------------------------

  /** `ContractData`: the client's fields, the plan id, the contract number and the optional company fields. */
  datatype TsContractData = TsContractData(
    nome: string, nif: string, email: string, whatsapp: string, endereco: string,
    plano: string, numeroContrato: string,
    contratadaNome: Option<string>, contratadaNif: Option<string>, contratadaEndereco: Option<string>)

  /** `getPlanoInfoTexto`'s computed values. The tier comes from the id text
      alone; the period is annual when the id mentions ANUAL or the resolved
      plan is annual; the price is the resolved plan's. */
  function PlanChoiceTs(plano: string): (c: PlanChoice)
    ensures c.tier == Basic <==> Contains(Upper(plano), "BASIC")
    ensures c.period == Anual <==> Contains(Upper(plano), "ANUAL") || !Contains(Upper(plano), "SEMESTRAL")
    ensures c.price == Catalog(FallbackKey(plano)).valorMensal
  {
    var info := GetPlanInfo(plano);
    var tipo := if Contains(Upper(plano), "BASIC") then Basic else Premium;
    var isAnual := Contains(Upper(plano), "ANUAL") || info.periodo == Anual;
    PlanChoice(if isAnual then Anual else Semestral, tipo, info.valorMensal)
  }

  /** `getPlanoInfoTexto`. */
  function PlanoInfoTextoTs(plano: string): string {
    PlanChoiceText(PlanChoiceTs(plano), "EUR/mês")
  }

  /** The empty id shows tier PREMIUM with BASIC - Anual's price: tier and plan are decided separately. */
  lemma EmptyIdTierMismatch()
    ensures PlanChoiceTs("") == PlanChoice(Anual, Premium, 60)
  {
    ResolveEmpty();
    MissingCharNotContained(Upper(""), "BASIC", 0);
  }

  /** `getReagendamentosTexto`: the same two lines whatever the plan. */
  const RescheduleTs: string :=
    "Plano Basic: Permitido 01 (um) reagendamento mensal.\nPlano Premium: Permitido até 02 (dois) reagendamentos mensais."

  /** `getBeneficioPremium`: the bonus line exactly when the upper-cased id mentions PREMIUM. */
  function BonusTs(plano: string): (r: string)
    ensures r != "" <==> Contains(Upper(plano), "PREMIUM")
    ensures r == "" || r == PremiumBonusLine
  {
    if Contains(Upper(plano), "PREMIUM") then PremiumBonusLine else ""
  }

  const MonthNames: seq<string> := [
    "janeiro", "fevereiro", "março", "abril", "maio", "junho",
    "julho", "agosto", "setembro", "outubro", "novembro", "dezembro"]

  /** `formatDate` with the date passed in: "<day> de <month name> de <year>". */
  function FormatDate(day: nat, month: nat, year: nat): string
    requires 1 <= month <= 12
  {
    Dec(day) + " de " + MonthNames[month - 1] + " de " + Dec(year)
  }

  /** Reads a date written by `FormatDate` back into (day, month, year). */
  function ParseDate(s: string): Option<(nat, nat, nat)> {
    var f := Split(s, ' ');
    if |f| == 5 && AllDigits(f[0]) && f[1] == "de" && f[2] in MonthNames && f[3] == "de" && AllDigits(f[4])
    then Some((ParseDec(f[0]), MonthIndex(f[2]) + 1, ParseDec(f[4])))
    else None
  }

  /** The position of a month name in `MonthNames`. */
  function MonthIndex(name: string): (i: nat)
    requires name in MonthNames
    ensures i < 12 && MonthNames[i] == name
  {
    if name == MonthNames[0] then 0
    else if name == MonthNames[1] then 1
    else if name == MonthNames[2] then 2
    else if name == MonthNames[3] then 3
    else if name == MonthNames[4] then 4
    else if name == MonthNames[5] then 5
    else if name == MonthNames[6] then 6
    else if name == MonthNames[7] then 7
    else if name == MonthNames[8] then 8
    else if name == MonthNames[9] then 9
    else if name == MonthNames[10] then 10
    else 11
  }

  lemma MonthNamesDistinct(i: nat, j: nat)
    requires i < 12 && j < 12 && MonthNames[i] == MonthNames[j]
    ensures i == j
  {
  }

  lemma MonthNamesHaveNoSpace(i: nat)
    requires i < 12
    ensures ' ' !in MonthNames[i]
  {
  }

  lemma JoinFiveFields(f: seq<string>, sep: char)
    requires |f| == 5
    ensures Join(f, sep) == f[0] + [sep] + f[1] + [sep] + f[2] + [sep] + f[3] + [sep] + f[4]
  {
    assert Join(f[4..], sep) == f[4];
    assert Join(f[3..], sep) == f[3] + [sep] + f[4] by { assert f[3..][1..] == f[4..]; }
    assert Join(f[2..], sep) == f[2] + [sep] + f[3] + [sep] + f[4] by { assert f[2..][1..] == f[3..]; }
    assert Join(f[1..], sep) == f[1] + [sep] + f[2] + [sep] + f[3] + [sep] + f[4] by { assert f[1..][1..] == f[2..]; }
  }

  /** The five space-separated fields of a formatted date. */
  function DateFields(day: nat, month: nat, year: nat): seq<string>
    requires 1 <= month <= 12
  {
    [Dec(day), "de", MonthNames[month - 1], "de", Dec(year)]
  }

  lemma DigitsHaveNoSpace(s: string)
    requires AllDigits(s)
    ensures ' ' !in s
  {
  }

  /** Splitting a formatted date on spaces yields its five fields. */
  lemma SplitFormatDate(day: nat, month: nat, year: nat)
    requires 1 <= month <= 12
    ensures Split(FormatDate(day, month, year), ' ') == DateFields(day, month, year)
  {
    JoinDateFields(day, month, year);
    DateFieldsHaveNoSpace(day, month, year);
    SplitJoin(DateFields(day, month, year), ' ');
  }

  lemma JoinDateFields(day: nat, month: nat, year: nat)
    requires 1 <= month <= 12
    ensures Join(DateFields(day, month, year), ' ') == FormatDate(day, month, year)
  {
    JoinFiveFields(DateFields(day, month, year), ' ');
  }

  lemma DateFieldsHaveNoSpace(day: nat, month: nat, year: nat)
    requires 1 <= month <= 12
    ensures forall k :: 0 <= k < |DateFields(day, month, year)| ==> ' ' !in DateFields(day, month, year)[k]
  {
    MonthNamesHaveNoSpace(month - 1);
    DigitsHaveNoSpace(Dec(day));
    DigitsHaveNoSpace(Dec(year));
  }

  /** The rendered date determines the date: reading it back gives day, month and year. */
  lemma FormatDateRoundTrip(day: nat, month: nat, year: nat)
    requires 1 <= month <= 12
    ensures ParseDate(FormatDate(day, month, year)) == Some((day, month, year))
  {
    SplitFormatDate(day, month, year);
    var f := DateFields(day, month, year);
    ParseDecOfDec(day);
    ParseDecOfDec(year);
    assert f[2] in MonthNames;
    MonthNamesDistinct(MonthIndex(f[2]), month - 1);
  }

  /** The computed insertions of `getContratoCompleto` for a given date. */
  function ComposeTs(d: TsContractData, day: nat, month: nat, year: nat): (r: Insertions)
    requires 1 <= month <= 12
    ensures r.planChoice == PlanChoiceTs(d.plano)
    ensures r.discount == (if Contains(Upper(d.plano), "PREMIUM") then "50%" else "30%")
    ensures r.loyaltyMonths == (if Contains(Upper(d.plano), "SEMESTRAL") then 6 else 12)
    ensures r.premiumBonus != "" <==> r.discount == "50%"
    ensures r.companyName != ""
    ensures r.companyName == DefaultCompanyName <==>
      (d.contratadaNome.None? || d.contratadaNome.value in {"", DefaultCompanyName})
    ensures ParseDate(r.date) == Some((day, month, year))
    ensures r.reschedule == RescheduleTs
  {
    var plano := d.plano;
    var info := GetPlanInfo(plano);
    PlanInfoTerms(plano);
    FormatDateRoundTrip(day, month, year);
    Insertions(
      OrElse(d.contratadaNome, DefaultCompanyName),
      OrElse(d.contratadaNif, ""),
      OrElse(d.contratadaEndereco, ""),
      d.nome, d.nif, d.email, d.whatsapp, d.endereco,
      PlanChoiceTs(plano),
      RescheduleTs,
      info.descontoExtras,
      BonusTs(plano),
      info.fidelidade,
      FormatDate(day, month, year),
      d.numeroContrato)
  }

  /** The discount and the loyalty period `getPlanInfo` yields, by the keywords of the id. */
  lemma PlanInfoTerms(plano: string)
    ensures GetPlanInfo(plano).descontoExtras == (if Contains(Upper(plano), "PREMIUM") then "50%" else "30%")
    ensures GetPlanInfo(plano).fidelidade == (if Contains(Upper(plano), "SEMESTRAL") then 6 else 12)
  {
    var k := FallbackKey(plano);
    assert GetPlanInfo(plano) == Catalog(k);
    CatalogInvariants(k);
  }

  // ---------------------------------------------------------------------------
  // Python composer
  // ---------------------------------------------------------------------------

  /** The `dados` dictionary: a missing key is `None`. */
  datatype PyContractData = PyContractData(
    nome: Option<string>, nif: Option<string>, email: Option<string>, whatsapp: Option<string>,
    endereco: Option<string>, plano: Option<string>, numeroContrato: Option<string>,
    contratadaNome: Option<string>, contratadaNif: Option<string>, contratadaEndereco: Option<string>)

  /** An occurrence survives upper-casing of both strings. */
  lemma ContainsUpper(s: string, t: string)
    requires Contains(s, t)
    ensures Contains(Upper(s), Upper(t))
  {
    var i :| 0 <= i <= |s| - |t| && OccursAt(s, t, i);
    assert Upper(s)[i..i + |t|] == Upper(t);
    assert OccursAt(Upper(s), Upper(t), i);
  }

  /** An id that mentions "Semestral" also mentions SEMESTRAL once upper-cased. */
  lemma SemestralSubsumed(plano: string)
    ensures Contains(plano, "Semestral") ==> Contains(Upper(plano), "SEMESTRAL")
  {
    if Contains(plano, "Semestral") {
      assert Upper("Semestral") == "SEMESTRAL";
      ContainsUpper(plano, "Semestral");
    }
  }

  /** `get_plano_info_texto`'s computed values. The period is semestral exactly
      when the upper-cased id mentions SEMESTRAL; the explicit check for
      "Semestral" is subsumed by it. */
  function PlanChoicePy(plano: string): (c: PlanChoice)
    ensures c.tier == Basic <==> Contains(Upper(plano), "BASIC")
    ensures c.period == Semestral <==> Contains(Upper(plano), "SEMESTRAL")
    ensures c.price == Catalog(FallbackKey(plano)).valorMensal
  {
    var info := Catalog(ResolvePy(plano));
    var tipo := if Contains(Upper(plano), "BASIC") then Basic else Premium;
    SemestralSubsumed(plano);
    if Contains(plano, "Semestral") || Contains(Upper(plano), "SEMESTRAL") then
      PlanChoice(Semestral, tipo, info.valorMensal)
    else PlanChoice(Anual, tipo, info.valorMensal)
  }

  /** `get_plano_info_texto`. */
  function PlanoInfoTextoPy(plano: string): string {
    PlanChoiceText(PlanChoicePy(plano), "EUR/mes")
  }

  const ReschedulePyText: string :=
    "Plano Basic: Permitido 01 (um) reagendamento mensal.\nPlano Premium: Permitido ate 02 (dois) reagendamentos mensais."

  /** `get_reagendamentos_texto`: both branches return the same text, so the plan makes no difference. */
  function ReschedulePy(plano: string): (r: string)
    ensures r == ReschedulePyText
  {
    if Contains(plano, "BASIC") then ReschedulePyText else ReschedulePyText
  }

  /** `get_beneficio_premium`: the bonus line exactly when PREMIUM occurs in the id with that exact case. */
  function BonusPy(plano: string): (r: string)
    ensures r != "" <==> Contains(plano, "PREMIUM")
    ensures r == "" || r == PremiumBonusLine
  {
    if Contains(plano, "PREMIUM") then PremiumBonusLine else ""
  }

  /** The computed insertions of `get_contrato_completo`; `date` stands for
      the `strftime` result. Discount and loyalty use the exact key only and
      default to "30%" and 6 months; the company name defaults only when the
      key is missing. */
  function ComposePy(d: PyContractData, date: string): (r: Insertions)
    ensures r.planChoice == PlanChoicePy(d.plano.GetOr(""))
    ensures ExactKey(d.plano.GetOr("")).None? ==> r.discount == "30%" && r.loyaltyMonths == 6
    ensures ExactKey(d.plano.GetOr("")).Some? ==>
      var k := ExactKey(d.plano.GetOr("")).value;
      r.discount == Catalog(k).descontoExtras && r.loyaltyMonths == Catalog(k).fidelidade
    ensures r.premiumBonus != "" <==> Contains(d.plano.GetOr(""), "PREMIUM")
    ensures d.contratadaNome.Some? ==> r.companyName == d.contratadaNome.value
    ensures d.contratadaNome.None? ==> r.companyName == DefaultCompanyName
    ensures r.reschedule == ReschedulePyText && r.date == date
  {
    var plano := d.plano.GetOr("");
    var exact := ExactKey(plano);
    var discount := if exact.Some? then Catalog(exact.value).descontoExtras else "30%";
    var loyalty := if exact.Some? then Catalog(exact.value).fidelidade else 6;
    Insertions(
      d.contratadaNome.GetOr(DefaultCompanyName),
      d.contratadaNif.GetOr(""),
      d.contratadaEndereco.GetOr(""),
      d.nome.GetOr(""), d.nif.GetOr(""), d.email.GetOr(""), d.whatsapp.GetOr(""), d.endereco.GetOr(""),
      PlanChoicePy(plano),
      ReschedulePy(plano),
      discount,
      BonusPy(plano),
      loyalty,
      date,
      d.numeroContrato.GetOr(""))
  }

  // ---------------------------------------------------------------------------
  // How the two composers relate
  // ---------------------------------------------------------------------------

  /** The period labels differ exactly for ids that mention both ANUAL and
      SEMESTRAL: TypeScript then says ANUAL, Python SEMESTRAL. Tier and price always agree. */
  lemma PlanChoicesCompared(plano: string)
    ensures PlanChoiceTs(plano).tier == PlanChoicePy(plano).tier
    ensures PlanChoiceTs(plano).price == PlanChoicePy(plano).price
    ensures PlanChoiceTs(plano).period != PlanChoicePy(plano).period <==>
      Contains(Upper(plano), "ANUAL") && Contains(Upper(plano), "SEMESTRAL")
    ensures PlanChoiceTs(plano).period != PlanChoicePy(plano).period ==>
      PlanChoiceTs(plano).period == Anual
  {
  }

  /** A bonus line in Python implies one in TypeScript, not conversely. */
  lemma BonusCompared(plano: string)
    ensures BonusPy(plano) != "" ==> BonusTs(plano) != ""
  {
    if Contains(plano, "PREMIUM") {
      ContainsUpper(plano, "PREMIUM");
      assert Upper("PREMIUM") == "PREMIUM";
    }
  }

  /** On the four catalog keys the two composers insert the same plan values. */
  lemma ComposersAgreeOnKeys(k: PlanKey, t: TsContractData, p: PyContractData, day: nat, month: nat, year: nat, date: string)
    requires 1 <= month <= 12
    requires t.plano == KeyName(k) && p.plano == Some(KeyName(k))
    ensures ComposeTs(t, day, month, year).planChoice == ComposePy(p, date).planChoice
    ensures ComposeTs(t, day, month, year).discount == ComposePy(p, date).discount
    ensures ComposeTs(t, day, month, year).loyaltyMonths == ComposePy(p, date).loyaltyMonths
    ensures ComposeTs(t, day, month, year).premiumBonus == ComposePy(p, date).premiumBonus
  {
    KeyKeywords(k);
    CatalogInvariants(k);
    ExactKeyOfKeyName(k);
    KeyNameMentionsPremium(k);
  }

  lemma CaseVariantFacts()
    ensures Upper("Premium - Anual") == "PREMIUM - ANUAL"
    ensures ExactKey("Premium - Anual").None?
    ensures !Contains("Premium - Anual", "PREMIUM")
  {
    forall k: PlanKey
      ensures KeyName(k) != "Premium - Anual"
    {
      assert KeyName(k)[1] == TierName(k.tier)[1];
    }
    MissingCharNotContained("Premium - Anual", "PREMIUM", 1);
  }

  /** A case variant of a key shows where Python is inconsistent: the choice
      line resolves "Premium - Anual" to PREMIUM - Anual (price 100, annual),
      but discount and loyalty fall back to "30%" and 6 months and the bonus
      line is missing. */
  lemma CaseVariantComposedPy(p: PyContractData, date: string)
    requires p.plano == Some("Premium - Anual")
    ensures ComposePy(p, date).planChoice == PlanChoice(Anual, Premium, 100)
    ensures ComposePy(p, date).discount == "30%" && ComposePy(p, date).loyaltyMonths == 6
    ensures ComposePy(p, date).premiumBonus == ""
  {
    CaseVariantFacts();
    PremiumAnualKeywords();
  }

  /** For the same id TypeScript inserts "50%", 12 months and the bonus line. */
  lemma CaseVariantComposedTs(t: TsContractData, day: nat, month: nat, year: nat)
    requires t.plano == "Premium - Anual" && 1 <= month <= 12
    ensures ComposeTs(t, day, month, year).planChoice == PlanChoice(Anual, Premium, 100)
    ensures ComposeTs(t, day, month, year).discount == "50%" && ComposeTs(t, day, month, year).loyaltyMonths == 12
    ensures ComposeTs(t, day, month, year).premiumBonus == PremiumBonusLine
  {
    CaseVariantFacts();
    PremiumAnualKeywords();
  }
}
