/** The plan catalog (`PLANOS`) and the resolution of a free-text plan id
    to one of its four plans, as both implementations do it
    (nodejs/src/lib/contracts.ts and contract_text.py). */
module Plans {
  import opened Results
  import opened Text

  datatype Tier = Basic | Premium

  /** The billing period, the catalog's `periodo` field. */
  datatype Period = Semestral | Anual

  /** A catalog key: one of the four combinations of tier and period. */
  datatype PlanKey = PlanKey(tier: Tier, period: Period)

  /** One catalog entry. `economiaAnual` is present only for the annual plans. */
  datatype Plan = Plan(
    nomeDisplay: string,
    sessoes: nat,
    valorMensal: nat,
    periodo: Period,
    fidelidade: nat,
    descricao: string,
    descontoExtras: string,
    reagendamentos: nat,
    economiaAnual: Option<nat>)

  function TierName(t: Tier): string {
    match t
    case Basic => "BASIC"
    case Premium => "PREMIUM"
  }

  function PeriodName(p: Period): string {
    match p
    case Semestral => "Semestral"
    case Anual => "Anual"
  }

  /** The key string, e.g. "PREMIUM - Anual". */
  function KeyName(k: PlanKey): string {
    TierName(k.tier) + " - " + PeriodName(k.period)
  }

  /** The catalog keys in declaration order. */
  const Keys: seq<PlanKey> := [
    PlanKey(Basic, Semestral), PlanKey(Basic, Anual),
    PlanKey(Premium, Semestral), PlanKey(Premium, Anual)]

  /** The catalog entry for a key. Both implementations declare the same four records. */
  function Catalog(k: PlanKey): Plan {
    match k
    case PlanKey(Basic, Semestral) =>
      Plan("BASIC (6 meses)", 2, 75, Semestral, 6,
           "2 sessões/mês - Fidelidade 6 meses", "30%", 1, None)
    case PlanKey(Basic, Anual) =>
      Plan("BASIC (12 meses)", 2, 60, Anual, 12,
           "2 sessões/mês - Fidelidade 12 meses - Desconto Extra", "30%", 1, Some(180))
    case PlanKey(Premium, Semestral) =>
      Plan("PREMIUM (6 meses)", 4, 120, Semestral, 6,
           "4 sessões/mês - Fidelidade 6 meses + Consultoria Skincare", "50%", 2, None)
    case PlanKey(Premium, Anual) =>
      Plan("PREMIUM (12 meses)", 4, 100, Anual, 12,
           "4 sessões/mês - Fidelidade 12 meses - Desconto Extra + Consultoria Skincare", "50%", 2, Some(240))
  }

  /** The invariants the catalog's figures keep: the period field matches the
      key, loyalty is 6 or 12 months by period, BASIC allows one reschedule
      and PREMIUM two, and the annual saving is twelve times the monthly
      difference between the semestral and the annual price of the tier. */
  lemma CatalogInvariants(k: PlanKey)
    ensures Catalog(k).periodo == k.period
    ensures Catalog(k).fidelidade == (if k.period == Semestral then 6 else 12)
    ensures Catalog(k).reagendamentos == (if k.tier == Basic then 1 else 2)
    ensures Catalog(k).descontoExtras == (if k.tier == Basic then "30%" else "50%")
    ensures k.period == Semestral <==> Catalog(k).economiaAnual.None?
    ensures k.period == Anual ==>
      Catalog(k).economiaAnual == Some(12 * (Catalog(PlanKey(k.tier, Semestral)).valorMensal - Catalog(k).valorMensal))
  {
    match k
    case PlanKey(Basic, Semestral) =>
    case PlanKey(Basic, Anual) => assert Catalog(PlanKey(Basic, Semestral)).valorMensal == 75;
    case PlanKey(Premium, Semestral) =>
    case PlanKey(Premium, Anual) => assert Catalog(PlanKey(Premium, Semestral)).valorMensal == 120;
  }

  // ---------------------------------------------------------------------------
  // Facts about the four key strings
  // ---------------------------------------------------------------------------

  /** The upper-cased key names, which is what the substring fallback inspects. */
  lemma UpperKeyNames()
    ensures Upper(KeyName(PlanKey(Basic, Semestral))) == "BASIC - SEMESTRAL"
    ensures Upper(KeyName(PlanKey(Basic, Anual))) == "BASIC - ANUAL"
    ensures Upper(KeyName(PlanKey(Premium, Semestral))) == "PREMIUM - SEMESTRAL"
    ensures Upper(KeyName(PlanKey(Premium, Anual))) == "PREMIUM - ANUAL"
  {
    UpperKeyName(PlanKey(Basic, Semestral));
    UpperKeyName(PlanKey(Basic, Anual));
    UpperKeyName(PlanKey(Premium, Semestral));
    UpperKeyName(PlanKey(Premium, Anual));
  }

  /** A key name upper-cased: the tier name is already upper case, the period name is not. */
  lemma UpperKeyName(k: PlanKey)
    ensures Upper(KeyName(k)) == TierName(k.tier) + " - " + UpperPeriodName(k.period)
  {
    UpperAppend(TierName(k.tier) + " - ", PeriodName(k.period));
    UpperAppend(TierName(k.tier), " - ");
    assert Upper(" - ") == " - ";
    UpperTierName(k.tier);
    UpperPeriodNameSpec(k.period);
  }

  function UpperPeriodName(p: Period): string {
    match p
    case Semestral => "SEMESTRAL"
    case Anual => "ANUAL"
  }

  lemma UpperTierName(t: Tier)
    ensures Upper(TierName(t)) == TierName(t)
  {
    match t
    case Basic => assert Upper("BASIC") == "BASIC";
    case Premium => assert Upper("PREMIUM") == "PREMIUM";
  }

  lemma UpperPeriodNameSpec(p: Period)
    ensures Upper(PeriodName(p)) == UpperPeriodName(p)
  {
    match p
    case Semestral => assert Upper("Semestral") == "SEMESTRAL";
    case Anual => assert Upper("Anual") == "ANUAL";
  }

  /** Which of the fallback's keywords each upper-cased key name contains. */
  lemma KeyKeywords(k: PlanKey)
    ensures Contains(Upper(KeyName(k)), "PREMIUM") <==> k.tier == Premium
    ensures Contains(Upper(KeyName(k)), "BASIC") <==> k.tier == Basic
    ensures Contains(Upper(KeyName(k)), "SEMESTRAL") <==> k.period == Semestral
    ensures Contains(Upper(KeyName(k)), "ANUAL") <==> k.period == Anual
  {
    UpperKeyNames();
    match k
    case PlanKey(Basic, Semestral) => BasicSemestralKeywords();
    case PlanKey(Basic, Anual) => BasicAnualKeywords();
    case PlanKey(Premium, Semestral) => PremiumSemestralKeywords();
    case PlanKey(Premium, Anual) => PremiumAnualKeywords();
  }

  lemma BasicSemestralKeywords()
    ensures Contains("BASIC - SEMESTRAL", "BASIC") && Contains("BASIC - SEMESTRAL", "SEMESTRAL")
    ensures !Contains("BASIC - SEMESTRAL", "PREMIUM") && !Contains("BASIC - SEMESTRAL", "ANUAL")
  {
    assert OccursAt("BASIC - SEMESTRAL", "BASIC", 0);
    assert OccursAt("BASIC - SEMESTRAL", "SEMESTRAL", 8);
    MissingCharNotContained("BASIC - SEMESTRAL", "PREMIUM", 0);
    MissingCharNotContained("BASIC - SEMESTRAL", "ANUAL", 1);
  }

  lemma BasicAnualKeywords()
    ensures Contains("BASIC - ANUAL", "BASIC") && Contains("BASIC - ANUAL", "ANUAL")
    ensures !Contains("BASIC - ANUAL", "PREMIUM") && !Contains("BASIC - ANUAL", "SEMESTRAL")
  {
    assert OccursAt("BASIC - ANUAL", "BASIC", 0);
    assert OccursAt("BASIC - ANUAL", "ANUAL", 8);
    MissingCharNotContained("BASIC - ANUAL", "PREMIUM", 0);
    MissingCharNotContained("BASIC - ANUAL", "SEMESTRAL", 1);
  }

  lemma PremiumSemestralKeywords()
    ensures Contains("PREMIUM - SEMESTRAL", "PREMIUM") && Contains("PREMIUM - SEMESTRAL", "SEMESTRAL")
    ensures !Contains("PREMIUM - SEMESTRAL", "BASIC") && !Contains("PREMIUM - SEMESTRAL", "ANUAL")
  {
    assert OccursAt("PREMIUM - SEMESTRAL", "PREMIUM", 0);
    assert OccursAt("PREMIUM - SEMESTRAL", "SEMESTRAL", 10);
    MissingCharNotContained("PREMIUM - SEMESTRAL", "BASIC", 0);
    MissingCharNotContained("PREMIUM - SEMESTRAL", "ANUAL", 1);
  }

  lemma PremiumAnualKeywords()
    ensures Contains("PREMIUM - ANUAL", "PREMIUM") && Contains("PREMIUM - ANUAL", "ANUAL")
    ensures !Contains("PREMIUM - ANUAL", "BASIC") && !Contains("PREMIUM - ANUAL", "SEMESTRAL")
  {
    assert OccursAt("PREMIUM - ANUAL", "PREMIUM", 0);
    assert OccursAt("PREMIUM - ANUAL", "ANUAL", 10);
    MissingCharNotContained("PREMIUM - ANUAL", "BASIC", 0);
    MissingCharNotContained("PREMIUM - ANUAL", "SEMESTRAL", 0);
  }

  /** The four key names are pairwise distinct. */
  lemma KeyNameInjective(a: PlanKey, b: PlanKey)
    requires KeyName(a) == KeyName(b)
    ensures a == b
  {
    KeyKeywords(a);
    KeyKeywords(b);
  }

  // ---------------------------------------------------------------------------
  // Resolution
  // ---------------------------------------------------------------------------

  /** The key whose name is exactly `plano`, if any (`plano in PLANOS` on the own keys). */
  function ExactKey(plano: string): (r: Option<PlanKey>)
    ensures r.Some? ==> KeyName(r.value) == plano
    ensures r.None? ==> forall k: PlanKey :: KeyName(k) != plano
  {
    if KeyName(Keys[0]) == plano then Some(Keys[0])
    else if KeyName(Keys[1]) == plano then Some(Keys[1])
    else if KeyName(Keys[2]) == plano then Some(Keys[2])
    else if KeyName(Keys[3]) == plano then Some(Keys[3])
    else None
  }

  /** Looking up a key's own name finds that key. */
  lemma ExactKeyOfKeyName(k: PlanKey)
    ensures ExactKey(KeyName(k)) == Some(k)
  {
    KeyNameInjective(ExactKey(KeyName(k)).value, k);
  }

  /** A key name contains PREMIUM, with that exact case, exactly when it is a PREMIUM key. */
  lemma KeyNameMentionsPremium(k: PlanKey)
    ensures Contains(KeyName(k), "PREMIUM") <==> k.tier == Premium
  {
    if k.tier == Premium {
      assert OccursAt(KeyName(k), "PREMIUM", 0);
    } else {
      MissingCharNotContained(KeyName(k), "PREMIUM", 0);
    }
  }

  /** The substring fallback shared by both implementations: PREMIUM when the
      upper-cased id mentions it, otherwise BASIC; semestral when it mentions
      SEMESTRAL, otherwise annual. */
  function FallbackKey(plano: string): (k: PlanKey)
    ensures k.tier == Premium <==> Contains(Upper(plano), "PREMIUM")
    ensures k.period == Semestral <==> Contains(Upper(plano), "SEMESTRAL")
  {
    var u := Upper(plano);
    if Contains(u, "PREMIUM") then
      (if Contains(u, "SEMESTRAL") then PlanKey(Premium, Semestral) else PlanKey(Premium, Anual))
    else
      (if Contains(u, "SEMESTRAL") then PlanKey(Basic, Semestral) else PlanKey(Basic, Anual))
  }

  /** Every key name falls back to its own key, so the exact-match step never changes the outcome. */
  lemma FallbackOfKeyName(k: PlanKey)
    ensures FallbackKey(KeyName(k)) == k
  {
    KeyKeywords(k);
  }

  /** `getPlanInfo` (TypeScript) with the own-key lookup it is meant to do:
      an exact key first, then the substring fallback. Total: every id,
      including the empty one, resolves to a catalog key. */
  function ResolveTs(plano: string): (k: PlanKey)
    ensures forall j: PlanKey :: KeyName(j) == plano ==> k == j
    ensures k == FallbackKey(plano)
  {
    match ExactKey(plano)
    case Some(j) => FallbackOfKeyName(j); j
    case None => FallbackKey(plano)
  }

  /** The empty id resolves to BASIC - Anual. */
  lemma ResolveEmpty()
    ensures ResolveTs("") == PlanKey(Basic, Anual)
  {
    MissingCharNotContained(Upper(""), "PREMIUM", 0);
    MissingCharNotContained(Upper(""), "SEMESTRAL", 0);
  }

  /** The first catalog key equal to `plano` ignoring case (Python's `p.lower() == plano.lower()` loop). */
  function CaseInsensitiveKey(plano: string): (r: Option<PlanKey>)
    ensures r.Some? ==> Lower(KeyName(r.value)) == Lower(plano)
    ensures r.None? ==> forall k: PlanKey :: Lower(KeyName(k)) != Lower(plano)
  {
    if Lower(KeyName(Keys[0])) == Lower(plano) then Some(Keys[0])
    else if Lower(KeyName(Keys[1])) == Lower(plano) then Some(Keys[1])
    else if Lower(KeyName(Keys[2])) == Lower(plano) then Some(Keys[2])
    else if Lower(KeyName(Keys[3])) == Lower(plano) then Some(Keys[3])
    else None
  }

  /** The plan `get_plano_info_texto` (Python) selects: exact key, then a
      case-insensitive key match, then the substring fallback. It never fails,
      and the two earlier steps never disagree with the fallback. */
  function ResolvePy(plano: string): (k: PlanKey)
    ensures k == FallbackKey(plano)
  {
    match ExactKey(plano)
    case Some(j) => FallbackOfKeyName(j); j
    case None =>
      match CaseInsensitiveKey(plano)
      case Some(j) =>
        SameLowerSameUpper(KeyName(j), plano);
        FallbackOfKeyName(j);
        j
      case None => FallbackKey(plano)
  }

  /** Both implementations resolve every id to the same plan for the plan-choice clause. */
  lemma ResolversAgree(plano: string)
    ensures ResolvePy(plano) == ResolveTs(plano)
  {
  }

  // ---------------------------------------------------------------------------
  // `getPlanInfo` as written: JavaScript's `in` also sees inherited members
  // ---------------------------------------------------------------------------

  /** The names every plain JavaScript object inherits from `Object.prototype`. */
  const ObjectPrototypeNames: set<string> := {
    "constructor", "hasOwnProperty", "isPrototypeOf", "propertyIsEnumerable",
    "toLocaleString", "toString", "valueOf", "__proto__",
    "__defineGetter__", "__defineSetter__", "__lookupGetter__", "__lookupSetter__"}

  /** What `getPlanInfo` returns as written: a catalog plan, or an inherited
      member of `Object.prototype` (a function or object with no plan fields). */
  datatype TsLookup = CatalogPlan(plan: Plan) | InheritedMember(name: string)

  /** No catalog key is an inherited name: the keys start with an upper-case letter. */
  lemma KeyNamesNotInherited(k: PlanKey)
    ensures KeyName(k) !in ObjectPrototypeNames
  {
    assert KeyName(k)[0] == TierName(k.tier)[0];
    assert forall n | n in ObjectPrototypeNames :: |n| > 0 && n[0] != 'B' && n[0] != 'P';
  }

  /** `getPlanInfo` exactly as written: `plano in PLANOS` is true for the four
      own keys AND for the inherited prototype names, and the latter return
      `PLANOS[plano]`, which is not a plan. */
  function GetPlanInfoAsWritten(plano: string): (r: TsLookup)
    ensures r.InheritedMember? <==> plano in ObjectPrototypeNames
    ensures r.CatalogPlan? ==> r.plan == Catalog(ResolveTs(plano))
  {
    match ExactKey(plano)
    case Some(k) => KeyNamesNotInherited(k); CatalogPlan(Catalog(k))
    case None =>
      if plano in ObjectPrototypeNames then InheritedMember(plano)
      else CatalogPlan(Catalog(FallbackKey(plano)))
  }

  /** The input that shows the defect: "toString" resolves to no plan at all,
      although the corrected resolution gives BASIC - Anual for it. */
  lemma InheritedNameResolvesToNoPlan()
    ensures GetPlanInfoAsWritten("toString").InheritedMember?
    ensures ResolveTs("toString") == PlanKey(Basic, Anual)
  {
    assert Upper("toString") == "TOSTRING";
    MissingCharNotContained("TOSTRING", "PREMIUM", 0);
    MissingCharNotContained("TOSTRING", "SEMESTRAL", 1);
  }

  /** The corrected `getPlanInfo`: the catalog plan of `ResolveTs`, for every id. */
  function GetPlanInfo(plano: string): (p: Plan)
    ensures p == Catalog(FallbackKey(plano))
    ensures p.periodo == Semestral <==> Contains(Upper(plano), "SEMESTRAL")
    ensures p.reagendamentos == 2 <==> Contains(Upper(plano), "PREMIUM")
  {
    var k := ResolveTs(plano);
    CatalogInvariants(k);
    Catalog(k)
  }

  /** The correction changes nothing except on the inherited names. */
  lemma CorrectionAgreesOnOwnNames(plano: string)
    requires plano !in ObjectPrototypeNames
    ensures GetPlanInfoAsWritten(plano) == CatalogPlan(GetPlanInfo(plano))
  {
  }
}
