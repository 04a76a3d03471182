/**
  The commands the user interface invokes (src-tauri/src/commands.rs): the
  interest calculation, the API-key configuration file, and the wrappers
  around the rate table. The application's data directory, the date parser
  and the rate source are parameters.
*/
module Commands {
  import opened Wrappers
  import opened Civil
  import opened Numerals
  import opened Calculator
  import opened Models
  import opened RateStore
  import opened RateFetcher

  // ---------------------------------------------------------------------
  // The configuration file `config.json`

  /** The part of a JSON document the key lookup distinguishes. */
  datatype JsonValue =
    | JsonString(text: string)
    | JsonObject(fields: map<string, JsonValue>)
    | JsonOther

  /** serde_json's `Value::get` with a string key: a field of an object,
      nothing for any other value. */
  function JsonGet(v: JsonValue, key: string): (r: Option<JsonValue>)
    ensures r.Some? <==> v.JsonObject? && key in v.fields
    ensures r.Some? ==> r.value == v.fields[key]
  {
    match v
    case JsonObject(fields) => if key in fields then Some(fields[key]) else None
    case _ => None
  }

  /** The configuration file as the application sees it: absent, present
      but unreadable, or read, with the result of parsing its text. */
  datatype ConfigFile =
    | NoConfig
    | Unreadable(reason: string)
    | Stored(document: Result<JsonValue, string>)

  const ApiKeyField := "fred_api_key"
  const ApiKeyNotConfigured := "API key not configured. Please set it in the settings."
  const ApiKeyNotFound := "API key not found in config"

  /** The string under `fred_api_key`, if the document holds one. */
  predicate HoldsKey(cfg: ConfigFile, key: string) {
    && cfg.Stored? && cfg.document.Success?
    && JsonGet(cfg.document.value, ApiKeyField) == Some(JsonString(key))
  }

  /** `get_api_key`: the stored key, or the reason there is none. */
  function GetApiKey(cfg: ConfigFile): (r: Result<string, string>)
    ensures r.Success? ==> HoldsKey(cfg, r.value)
    ensures forall key :: HoldsKey(cfg, key) ==> r == Success(key)
    ensures cfg.NoConfig? ==> r == Failure(ApiKeyNotConfigured)
    ensures cfg.Unreadable? ==> r == Failure("Failed to read config: " + cfg.reason)
    ensures cfg.Stored? && cfg.document.Failure? ==>
      r == Failure("Failed to parse config: " + cfg.document.error)
    ensures cfg.Stored? && cfg.document.Success? && r.Failure? ==> r.error == ApiKeyNotFound
  {
    match cfg
    case NoConfig => Failure(ApiKeyNotConfigured)
    case Unreadable(reason) => Failure("Failed to read config: " + reason)
    case Stored(Failure(e)) => Failure("Failed to parse config: " + e)
    case Stored(Success(document)) =>
      match JsonGet(document, ApiKeyField)
      case Some(JsonString(key)) => Success(key)
      case _ => Failure(ApiKeyNotFound)
  }

  /** `get_api_key_configured`: a non-empty key is stored. Every failure to
      read one answers `false`. */
  function ApiKeyConfigured(cfg: ConfigFile): (r: bool)
    ensures r <==> exists key :: key != "" && HoldsKey(cfg, key)
  {
    var stored := GetApiKey(cfg);
    stored.Success? && stored.value != ""
  }

  /** `set_api_key`: write `{"fred_api_key": key}`, replacing any previous
      file. `writeFailure` is the error the write reports, if any; then the
      file is left as it was. */
  function SetApiKey(cfg: ConfigFile, key: string, writeFailure: Option<string>): (r: (ConfigFile, Outcome<string>))
    ensures writeFailure.Some? ==> r == (cfg, Fail("Failed to save API key: " + writeFailure.value))
    ensures writeFailure.None? ==> r.1 == Pass && HoldsKey(r.0, key)
  {
    match writeFailure
    case Some(e) => (cfg, Fail("Failed to save API key: " + e))
    case None => (Stored(Success(JsonObject(map[ApiKeyField := JsonString(key)]))), Pass)
  }

  /** `validate_api_key_command`: the key validation's verdict, with its errors
      prefixed. */
  function ValidateApiKeyCommand(apiKey: string, send: string -> SendOutcome): (r: Result<bool, string>)
    ensures r.Success? <==> ValidateApiKey(apiKey, send).Success?
    ensures r.Success? ==> r.value == ValidateApiKey(apiKey, send).value
    ensures r.Failure? ==>
      r.error == "Failed to validate API key: " + ValidateApiKey(apiKey, send).error.Message()
  {
    ValidateApiKey(apiKey, send).MapFailure((e: FetchError) => "Failed to validate API key: " + e.Message())
  }

  // ---------------------------------------------------------------------
  // The rate table commands

  /** `get_all_state_rates`: every row sorted by state, or the database
      error with its prefix. */
  method GetAllStateRates(db: Result<RateTable, string>) returns (r: Result<seq<StateRate>, string>)
    ensures db.Failure? ==> r == Failure("Failed to fetch state rates: " + db.error)
    ensures db.Success? ==>
      r.Success? && SortedByState(r.value) && multiset(r.value) == multiset(db.value.rows)
  {
    if db.Failure? {
      return Failure("Failed to fetch state rates: " + db.error);
    }
    var rows := ListAll(db.value);
    return Success(rows);
  }

  /** `update_state_rate_command`. */
  function UpdateStateRateCommand(db: Result<RateTable, string>, rec: StateRate): (r: Result<RateTable, string>)
    ensures db.Failure? ==> r == Failure("Failed to update state rate: " + db.error)
    ensures db.Success? ==> r == Success(Update(db.value, rec))
  {
    match db
    case Failure(e) => Failure("Failed to update state rate: " + e)
    case Success(t) => Success(Update(t, rec))
  }

  /** `delete_state_rate_command`. */
  function DeleteStateRateCommand(db: Result<RateTable, string>, id: int): (r: Result<RateTable, string>)
    ensures db.Failure? ==> r == Failure("Failed to delete state rate: " + db.error)
    ensures db.Success? ==> r == Success(Delete(db.value, id))
  {
    match db
    case Failure(e) => Failure("Failed to delete state rate: " + e)
    case Success(t) => Success(Delete(t, id))
  }

  // ---------------------------------------------------------------------
  // The calculation

  /** Everything `calculate` reads besides the request: chrono's
      `%Y-%m-%d` parser, the configuration file, the rate table (or the
      error opening or querying it), and the rate source. */
  datatype Env = Env(
    parseDate: string -> Result<Date, string>,
    config: ConfigFile,
    db: Result<RateTable, string>,
    fetch: FredOracle)

  /** An annual rate as a decimal fraction, and the label shown with it. */
  datatype RateChoice = RateChoice(rate: real, source: string)

  const LiveFederalSource := "Federal Rate (1-Year Treasury)"
  const FallbackFederalSource := "Federal Rate (Cached/Default)"
  const RangeError := "From date must be before or equal to end date"
  const Disclaimer := "This is an estimate only. Please consult legal advice for accurate calculations. Rates may need manual updates."

  /** The live federal rate, or the 5 % default when it cannot be had. */
  function FederalBase(judgment: Date, apiKey: string, fetch: FredOracle): (r: real)
    ensures GetFederalRate(judgment, apiKey, fetch).Failure? ==> r == FallbackFederalRate()
    ensures GetFederalRate(judgment, apiKey, fetch).Success? ==> r == GetFederalRate(judgment, apiKey, fetch).value
  {
    GetFederalRate(judgment, apiKey, fetch).GetOr(FallbackFederalRate())
  }

  function VariableLabel(row: StateRate): string {
    row.state + " (Variable: Federal + " + ShowDecimal(row.plusPercentage) + "%)"
  }

  function FixedLabel(row: StateRate): string {
    row.state + " (Fixed: " + ShowDecimal(row.rate) + "%)"
  }

  function NotFound(name: string): string {
    "State '" + name + "' not found in database"
  }

  /** The federal branch: the live rate when the key is stored and the
      rate source answers, the 5 % default when the source fails, and the
      key's error when no key can be read. */
  function FederalChoice(judgment: Date, cfg: ConfigFile, fetch: FredOracle): (r: Result<RateChoice, string>)
    ensures GetApiKey(cfg).Failure? ==> r == Failure(GetApiKey(cfg).error)
    ensures forall key :: HoldsKey(cfg, key) && GetFederalRate(judgment, key, fetch).Success? ==>
      r == Success(RateChoice(GetFederalRate(judgment, key, fetch).value, LiveFederalSource))
    ensures forall key :: HoldsKey(cfg, key) && GetFederalRate(judgment, key, fetch).Failure? ==>
      r == Success(RateChoice(FallbackFederalRate(), FallbackFederalSource))
  {
    var key :- GetApiKey(cfg);
    match GetFederalRate(judgment, key, fetch)
    case Success(rate) => Success(RateChoice(rate, LiveFederalSource))
    case Failure(_) => Success(RateChoice(FallbackFederalRate(), FallbackFederalSource))
  }

  /** The rate of a stored row: its own rate as a fraction when fixed; the
      federal rate (or its default) plus its margin when variable, which
      needs the key. */
  function StateChoice(row: StateRate, judgment: Date, cfg: ConfigFile, fetch: FredOracle): (r: Result<RateChoice, string>)
    ensures !row.isVariable ==> r == Success(RateChoice(row.rate / 100.0, FixedLabel(row)))
    ensures row.isVariable && GetApiKey(cfg).Failure? ==> r == Failure(GetApiKey(cfg).error)
    ensures row.isVariable && GetApiKey(cfg).Success? ==>
      var key := GetApiKey(cfg).value;
      r == Success(RateChoice(FederalBase(judgment, key, fetch) + row.plusPercentage / 100.0, VariableLabel(row)))
  {
    if !row.isVariable then Success(RateChoice(row.rate / 100.0, FixedLabel(row)))
    else
      match GetApiKey(cfg)
      case Failure(e) => Failure(e)
      case Success(key) =>
        Success(RateChoice(FederalBase(judgment, key, fetch) + row.plusPercentage / 100.0, VariableLabel(row)))
  }

  /** The rate a request asks for. The table is read only for a state; the
      key only when the federal rate is needed. */
  function ResolveRate(req: CalcRequest, judgment: Date, env: Env): (r: Result<RateChoice, string>)
    ensures req.isFederal ==> r == FederalChoice(judgment, env.config, env.fetch)
    ensures !req.isFederal && env.db.Failure? ==> r == Failure("Database error: " + env.db.error)
    ensures !req.isFederal && env.db.Success? && !HasState(env.db.value.rows, req.state) ==>
      r == Failure(NotFound(req.state))
    ensures forall i :: !req.isFederal && env.db.Success? && 0 <= i < |env.db.value.rows|
                        && env.db.value.rows[i].state == req.state ==>
      r == StateChoice(env.db.value.rows[i], judgment, env.config, env.fetch)
  {
    if req.isFederal then FederalChoice(judgment, env.config, env.fetch)
    else
      match env.db
      case Failure(e) => Failure("Database error: " + e)
      case Success(table) =>
        match Lookup(table, req.state)
        case None => Failure(NotFound(req.state))
        case Some(row) =>
          assert forall i :: 0 <= i < |table.rows| && table.rows[i].state == req.state ==> table.rows[i] == row by {
            forall i | 0 <= i < |table.rows| && table.rows[i].state == req.state
              ensures table.rows[i] == row
            {
              LookupUnique(table, req.state, i);
            }
          }
          StateChoice(row, judgment, env.config, env.fetch)
  }

  /** What a successful calculation reports: the dates parsed and in order,
      the day count, the rate as a percentage with its label, the interest
      rounded to the cent as `ComputeInterest` rounds it (a tie goes away
      from zero), the total, and the disclaimer. */
  predicate Reports(req: CalcRequest, env: Env, resp: CalcResponse) {
    && env.parseDate(req.judgmentDate).Success?
    && env.parseDate(req.fromDate).Success?
    && env.parseDate(req.toDate).Success?
    && var from := env.parseDate(req.fromDate).value;
    && var to := env.parseDate(req.toDate).value;
    && !Before(to, from)
    && var choice := ResolveRate(req, env.parseDate(req.judgmentDate).value, env);
    && choice.Success?
    && resp.days == DaysBetween(from, to) >= 0
    && resp.rate == choice.value.rate * 100.0
    && resp.rateSource == choice.value.source
    && resp.interestAmount == ComputeInterest(req.amount, choice.value.rate, resp.days)
    && resp.totalAmount == req.amount + resp.interestAmount
    && resp.disclaimer == Disclaimer
  }

  /** All three dates of the request parse. */
  predicate DatesRead(req: CalcRequest, env: Env) {
    && env.parseDate(req.judgmentDate).Success?
    && env.parseDate(req.fromDate).Success?
    && env.parseDate(req.toDate).Success?
  }

  /** `calculate`: parse the three dates (in that order), check the range,
      find the rate, and compute the interest to the cent. */
  function Calculate(req: CalcRequest, env: Env): (r: Result<CalcResponse, string>)
    ensures env.parseDate(req.judgmentDate).Failure? ==>
      r == Failure("Invalid judgment date: " + env.parseDate(req.judgmentDate).error)
    ensures env.parseDate(req.judgmentDate).Success? && env.parseDate(req.fromDate).Failure? ==>
      r == Failure("Invalid from date: " + env.parseDate(req.fromDate).error)
    ensures env.parseDate(req.judgmentDate).Success? && env.parseDate(req.fromDate).Success?
            && env.parseDate(req.toDate).Failure? ==>
      r == Failure("Invalid to date: " + env.parseDate(req.toDate).error)
    ensures DatesRead(req, env) && Before(env.parseDate(req.toDate).value, env.parseDate(req.fromDate).value) ==>
      r == Failure(RangeError)
    ensures DatesRead(req, env) && !Before(env.parseDate(req.toDate).value, env.parseDate(req.fromDate).value) ==>
      var choice := ResolveRate(req, env.parseDate(req.judgmentDate).value, env);
      (choice.Failure? ==> r == Failure(choice.error)) && (choice.Success? ==> r.Success?)
    ensures r.Success? ==> Reports(req, env, r.value)
  {
    var judgment :- env.parseDate(req.judgmentDate).MapFailure((e: string) => "Invalid judgment date: " + e);
    var from :- env.parseDate(req.fromDate).MapFailure((e: string) => "Invalid from date: " + e);
    var to :- env.parseDate(req.toDate).MapFailure((e: string) => "Invalid to date: " + e);
    if Before(to, from) then Failure(RangeError)
    else
      var choice :- ResolveRate(req, judgment, env);
      var days := DaysBetween(from, to);
      var interest := ComputeInterest(req.amount, choice.rate, days);
      Success(CalcResponse(choice.rate * 100.0, days, interest, req.amount + interest, choice.source, Disclaimer))
  }

  // ---------------------------------------------------------------------
  // Lemmas

  /** A one-field object, as `set_api_key` writes it, yields that field
      under its key and nothing under any other. */
  lemma JsonGetSingleton(key: string, field: JsonValue, asked: string)
    ensures JsonGet(JsonObject(map[key := field]), asked) == if asked == key then Some(field) else None
  {
  }

  /** A saved key is read back, and counts as configured exactly when it
      is not empty. */
  lemma SetThenGet(cfg: ConfigFile, key: string)
    ensures GetApiKey(SetApiKey(cfg, key, None).0) == Success(key)
    ensures ApiKeyConfigured(SetApiKey(cfg, key, None).0) <==> key != ""
  {
  }

  /** A failed save leaves the stored key, or its absence, as it was. */
  lemma FailedSetKeepsKey(cfg: ConfigFile, key: string, e: string)
    ensures GetApiKey(SetApiKey(cfg, key, Some(e)).0) == GetApiKey(cfg)
    ensures SetApiKey(cfg, key, Some(e)).1.Fail?
  {
  }

  /** Dates that parse but run backwards are refused before the
      configuration, the table or the rate source is consulted. */
  lemma ReversedRangeRejected(req: CalcRequest, env: Env, from: Date, to: Date)
    requires env.parseDate(req.judgmentDate).Success?
    requires env.parseDate(req.fromDate) == Success(from)
    requires env.parseDate(req.toDate) == Success(to)
    requires Before(to, from)
    ensures Calculate(req, env) == Failure(RangeError)
  {
  }

  /** A federal request fails when there is no configuration file, even
      though the rate itself has a default. */
  lemma FederalNeedsConfigFile(req: CalcRequest, env: Env)
    requires req.isFederal && env.config == NoConfig
    requires env.parseDate(req.judgmentDate).Success?
    requires env.parseDate(req.fromDate).Success? && env.parseDate(req.toDate).Success?
    requires !Before(env.parseDate(req.toDate).value, env.parseDate(req.fromDate).value)
    ensures Calculate(req, env) == Failure(ApiKeyNotConfigured)
  {
  }

  /** A stored but empty key never reaches the rate source: the federal
      rate is the 5 % default, whatever the source would answer. */
  lemma EmptyKeyFallsBack(req: CalcRequest, env: Env)
    requires req.isFederal && HoldsKey(env.config, "")
    requires env.parseDate(req.judgmentDate).Success?
    requires env.parseDate(req.fromDate).Success? && env.parseDate(req.toDate).Success?
    requires !Before(env.parseDate(req.toDate).value, env.parseDate(req.fromDate).value)
    ensures Calculate(req, env).Success?
    ensures Calculate(req, env).value.rate == 5.0
    ensures Calculate(req, env).value.rateSource == FallbackFederalSource
  {
    var judgment := env.parseDate(req.judgmentDate).value;
    assert GetFederalRate(judgment, "", env.fetch) == Failure(ApiKeyMissing);
  }

  /** With a key, the federal rate is the live average when the source
      answers and the default otherwise; the label says which. */
  lemma FederalRateSource(req: CalcRequest, env: Env, key: string)
    requires req.isFederal && HoldsKey(env.config, key)
    requires env.parseDate(req.judgmentDate).Success?
    requires env.parseDate(req.fromDate).Success? && env.parseDate(req.toDate).Success?
    requires !Before(env.parseDate(req.toDate).value, env.parseDate(req.fromDate).value)
    ensures Calculate(req, env).Success?
    ensures var live := GetFederalRate(env.parseDate(req.judgmentDate).value, key, env.fetch);
      && (live.Success? ==>
            Calculate(req, env).value.rate == live.value * 100.0
            && Calculate(req, env).value.rateSource == LiveFederalSource)
      && (live.Failure? ==>
            Calculate(req, env).value.rate == 5.0
            && Calculate(req, env).value.rateSource == FallbackFederalSource)
  {
  }

  /** A state the table does not hold is an error naming it. */
  lemma UnknownStateRejected(req: CalcRequest, env: Env)
    requires !req.isFederal && env.db.Success? && !HasState(env.db.value.rows, req.state)
    requires env.parseDate(req.judgmentDate).Success?
    requires env.parseDate(req.fromDate).Success? && env.parseDate(req.toDate).Success?
    requires !Before(env.parseDate(req.toDate).value, env.parseDate(req.fromDate).value)
    ensures Calculate(req, env) == Failure("State '" + req.state + "' not found in database")
  {
  }

  /** A fixed-rate state reports its own percentage: Alabama at 7.5 %. */
  lemma FixedStateExample(req: CalcRequest, env: Env)
    requires !req.isFederal && req.state == "Alabama"
    requires env.db.Success? && env.db.value.rows == [StateRate(2, "Alabama", 7.5, false, 0.0, "Annual", "2024-01-01", "7.5% per annum")]
    requires env.parseDate(req.judgmentDate).Success?
    requires env.parseDate(req.fromDate).Success? && env.parseDate(req.toDate).Success?
    requires !Before(env.parseDate(req.toDate).value, env.parseDate(req.fromDate).value)
    ensures Calculate(req, env).Success?
    ensures Calculate(req, env).value.rate == 7.5
    ensures Calculate(req, env).value.rateSource == "Alabama (Fixed: 7.5%)"
  {
    var row := env.db.value.rows[0];
    var judgment := env.parseDate(req.judgmentDate).value;
    AlabamaLabel(row);
    assert ResolveRate(req, judgment, env) == Success(RateChoice(0.075, "Alabama (Fixed: 7.5%)")) by {
      assert ResolveRate(req, judgment, env) == StateChoice(row, judgment, env.config, env.fetch);
    }
  }

  lemma AlabamaLabel(row: StateRate)
    requires row.state == "Alabama" && row.rate == 7.5
    ensures FixedLabel(row) == "Alabama (Fixed: 7.5%)"
  {
    ShowTenthsExample(row.rate);
  }

  /** A variable-rate state adds its margin to the federal rate: a margin
      of 3 on the 5 % default is 8 %, whatever the row's own rate. */
  lemma VariableStateExample(req: CalcRequest, env: Env, row: StateRate)
    requires !req.isFederal && row.state == req.state
    requires row.isVariable && row.plusPercentage == 3.0
    requires env.db.Success? && env.db.value.rows == [row]
    requires HoldsKey(env.config, "")
    requires env.parseDate(req.judgmentDate).Success?
    requires env.parseDate(req.fromDate).Success? && env.parseDate(req.toDate).Success?
    requires !Before(env.parseDate(req.toDate).value, env.parseDate(req.fromDate).value)
    ensures Calculate(req, env).Success?
    ensures Calculate(req, env).value.rate == 8.0
    ensures Calculate(req, env).value.rateSource == req.state + " (Variable: Federal + 3%)"
  {
    VariableResolved(req, env, row, env.parseDate(req.judgmentDate).value);
  }

  /** The rate choice of `VariableStateExample`, for any judgment date. */
  lemma VariableResolved(req: CalcRequest, env: Env, row: StateRate, judgment: Date)
    requires !req.isFederal && row.state == req.state
    requires row.isVariable && row.plusPercentage == 3.0
    requires env.db.Success? && env.db.value.rows == [row]
    requires HoldsKey(env.config, "")
    ensures ResolveRate(req, judgment, env) == Success(RateChoice(0.08, req.state + " (Variable: Federal + 3%)"))
  {
    ShowWholeExample(row.plusPercentage);
    LabelText(row.state, ShowDecimal(row.plusPercentage), '3');
    MarginText('3');
    assert ResolveRate(req, judgment, env) == StateChoice(row, judgment, env.config, env.fetch);
    assert GetFederalRate(judgment, "", env.fetch) == Failure(ApiKeyMissing);
    assert FederalBase(judgment, "", env.fetch) == 0.05;
  }

  /** A variable row with a margin of 0 resolves to the federal rate (or
      its default) itself, labelled "Federal + 0%". */
  lemma ZeroMarginVariable(row: StateRate, judgment: Date, cfg: ConfigFile, fetch: FredOracle)
    requires row.isVariable && row.plusPercentage == 0.0 && GetApiKey(cfg).Success?
    ensures StateChoice(row, judgment, cfg, fetch) ==
      Success(RateChoice(FederalBase(judgment, GetApiKey(cfg).value, fetch), row.state + " (Variable: Federal + 0%)"))
  {
    ZeroMarginLabel(row);
  }

  lemma ZeroMarginLabel(row: StateRate)
    requires row.plusPercentage == 0.0
    ensures VariableLabel(row) == row.state + " (Variable: Federal + 0%)"
  {
    ShowZeroExample(row.plusPercentage);
    LabelText(row.state, ShowDecimal(row.plusPercentage), '0');
    MarginText('0');
  }

  lemma MarginText(d: char)
    requires d == '0' || d == '3'
    ensures " (Variable: Federal + " + [d] + "%)" ==
      if d == '0' then " (Variable: Federal + 0%)" else " (Variable: Federal + 3%)"
  {
  }

  /** The variable label of a one-character margin. */
  lemma LabelText(state: string, shown: string, d: char)
    requires shown == [d]
    ensures state + " (Variable: Federal + " + shown + "%)" == state + (" (Variable: Federal + " + [d] + "%)")
  {
  }

  /** The seed records at 2, 36 and 45 (Alaska, Ohio and Utah, whose notes
      promise a margin of 3 % or 2 %; see `RateStore.SeededZeroMargins`)
      resolve to the bare federal rate: the variable branch reads
      `plusPercentage`, which the seed leaves at 0, and never the `rate`
      that holds the margin. */
  lemma SeededZeroMarginStates(today: string, judgment: Date, cfg: ConfigFile, fetch: FredOracle)
    requires GetApiKey(cfg).Success?
    ensures forall k :: k in [2, 36, 45] ==>
      && SeedRecords(today)[k].isVariable && SeedRecords(today)[k].plusPercentage == 0.0
      && StateChoice(SeedRecords(today)[k], judgment, cfg, fetch) ==
           Success(RateChoice(FederalBase(judgment, GetApiKey(cfg).value, fetch),
                              SeedRecords(today)[k].state + " (Variable: Federal + 0%)"))
  {
    var recs := SeedRecords(today);
    SeededZeroMargins(today);
    forall k | k in [2, 36, 45]
      ensures recs[k].isVariable && recs[k].plusPercentage == 0.0
      ensures StateChoice(recs[k], judgment, cfg, fetch) ==
        Success(RateChoice(FederalBase(judgment, GetApiKey(cfg).value, fetch), recs[k].state + " (Variable: Federal + 0%)"))
    {
      ZeroMarginVariable(recs[k], judgment, cfg, fetch);
    }
  }

  /** $10,000 over the 365 days from 2024-01-01 to 2024-12-31 at the 5 %
      default earns $500, for a total of $10,500. */
  lemma DefaultRateYearExample(req: CalcRequest, env: Env)
    requires req.isFederal && req.amount == 10000.0 && HoldsKey(env.config, "")
    requires env.parseDate(req.judgmentDate).Success?
    requires env.parseDate(req.fromDate) == Success(YearMonthDay(2024, 1, 1))
    requires env.parseDate(req.toDate) == Success(YearMonthDay(2024, 12, 31))
    ensures Calculate(req, env).Success?
    ensures Calculate(req, env).value.days == 365
    ensures Calculate(req, env).value.interestAmount == 500.0
    ensures Calculate(req, env).value.totalAmount == 10500.0
  {
    LeapYearExample();
    FullYearExample();
    OrdinalMonotone(YearMonthDay(2024, 12, 31), YearMonthDay(2024, 1, 1));
    EmptyKeyFallsBack(req, env);
  }
}
