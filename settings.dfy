/**
 * The application settings (class `Settings` of src/settings.py): the field
 * defaults, the "is the ledger configured" test the router repeats, and the
 * `allowed_origins` validator that turns a loosely typed configuration value
 * into a list of CORS origins.
 */
module Settings {
  import opened Results
  import opened PyText

  /** The settings fields, with Python's `str | None` as Option<string>. */
  datatype Config = Config(
    fireflyUrl: Option<string>,
    fireflyToken: Option<string>,
    users: Option<string>,
    allowedOrigins: seq<string>,
    demoMode: bool,
    secretKey: string,
    algorithm: string,
    accessTokenExpireMinutes: int,
    blikDescriptionFilter: string,
    tagBlikDone: string)

  /** "BLIK - płatność w internecie", the description the ledger gives these payments. */
  const DefaultDescriptionFilter: string :=
    "BLIK - p\U{0142}atno\U{015B}\U{0107} w internecie"

  /** The field defaults, used for every field the environment does not set. */
  const Defaults: Config := Config(
    fireflyUrl := None,
    fireflyToken := None,
    users := None,
    allowedOrigins := ["*"],
    demoMode := false,
    secretKey := "not_set",
    algorithm := "HS256",
    accessTokenExpireMinutes := 60,
    blikDescriptionFilter := DefaultDescriptionFilter,
    tagBlikDone := "blik_done")

  /** Python truthiness of an optional string: neither `None` nor `""`. */
  predicate Truthy(v: Option<string>)
  {
    v.Some? && v.value != []
  }

  /**
   * The router's guard `not settings.FIREFLY_URL or not settings.FIREFLY_TOKEN`
   * fails exactly when this is false.
   */
  predicate FireflyConfigured(c: Config)
  {
    Truthy(c.fireflyUrl) && Truthy(c.fireflyToken)
  }

  /** With nothing set, the ledger is not configured: every guarded call answers "Config error". */
  lemma DefaultsNotConfigured()
    ensures !FireflyConfigured(Defaults)
    ensures Defaults.allowedOrigins == ["*"] && Defaults.tagBlikDone == "blik_done"
  {
  }

  /**
   * The raw value handed to the validator (`mode="before"`): `None`, a string,
   * a list of strings, or a value of any other type.
   */
  datatype RawValue = NoneValue | Str(s: string) | Lst(items: seq<string>) | OtherType

  /** The two ValueErrors the validator raises. */
  datatype OriginsError =
    | InvalidJsonList  // "ALLOWED_ORIGINS must be valid JSON list"
    | InvalidFormat    // "Invalid ALLOWED_ORIGINS format: {v}"

  /** `json.loads`, left uninterpreted: `None` when it raises. */
  type JsonLoads = string -> Option<seq<string>>

  /** The wildcard test at the head of the string branches. */
  predicate IsWildcard(s: string)
  {
    Strip(s) == "*"
  }

  /** The JSON test, as the string reaches it: only once the comma test has failed. */
  predicate LooksLikeJsonList(s: string)
  {
    StartsWith(Strip(s), "[")
  }

  /** The CSV branch's value: the comma-separated pieces, each stripped. */
  function CsvOrigins(s: string): (r: seq<string>)
    ensures |r| == |Split(s, ',')|
  {
    var pieces := Split(s, ',');
    seq(|pieces|, k requires 0 <= k < |pieces| => Strip(pieces[k]))
  }

  /**
   * `Settings.parse_allowed_origins`: the branches in the order the source
   * tries them. The error cases are exactly a value of another type and a
   * comma-free bracketed string that `json.loads` rejects.
   */
  function ParseAllowedOrigins(v: RawValue, jsonLoads: JsonLoads): (r: Result<seq<string>, OriginsError>)
    ensures r.Err? <==>
      v.OtherType? ||
      (v.Str? && ',' !in v.s && !IsWildcard(v.s) && LooksLikeJsonList(v.s) && jsonLoads(v.s).None?)
    ensures r.Err? ==> (r.error == InvalidFormat <==> v.OtherType?)
  {
    match v
    case NoneValue => Ok(["*"])
    case Str(s) =>
      if IsWildcard(s) then Ok(["*"])
      else if ',' in s then Ok(CsvOrigins(s))
      else if LooksLikeJsonList(s) then
        (match jsonLoads(s)
         case Some(origins) => Ok(origins)
         case None => Err(InvalidJsonList))
      else Ok([s])
    case Lst(items) => Ok(items)
    case OtherType => Err(InvalidFormat)
  }

  /** A missing value means "every origin". */
  lemma NoneIsWildcard(jsonLoads: JsonLoads)
    ensures ParseAllowedOrigins(NoneValue, jsonLoads) == Ok(["*"])
    ensures ParseAllowedOrigins(NoneValue, jsonLoads) == Ok(Defaults.allowedOrigins)
  {
  }

  /** `"*"`, with any surrounding whitespace, means "every origin". */
  lemma WildcardString(s: string, jsonLoads: JsonLoads)
    requires Strip(s) == "*"
    ensures ParseAllowedOrigins(Str(s), jsonLoads) == Ok(["*"])
  {
  }

  /** A string holding a comma never reaches the wildcard test as a wildcard. */
  lemma CommaIsNotWildcard(s: string)
    requires ',' in s
    ensures !IsWildcard(s)
  {
    var i :| 0 <= i < |s| && s[i] == ',';
    assert !IsSpace(s[i]);
    StripMembers(s);
    assert ',' in Strip(s);
  }

  /**
   * Any string with a comma takes the CSV branch: one stripped origin per
   * piece, one more origin than there are commas, none of them holding a comma
   * or surrounding whitespace.
   */
  lemma {:induction false} CsvBranch(s: string, jsonLoads: JsonLoads)
    requires ',' in s
    ensures var r := ParseAllowedOrigins(Str(s), jsonLoads);
      && r == Ok(CsvOrigins(s))
      && |r.value| == Count(s, ',') + 1
      && forall k :: 0 <= k < |r.value| ==> ',' !in r.value[k] && Strip(r.value[k]) == r.value[k]
  {
    CommaIsNotWildcard(s);
    var pieces := Split(s, ',');
    var r := CsvOrigins(s);
    forall k | 0 <= k < |r|
      ensures ',' !in r[k] && Strip(r[k]) == r[k]
    {
      assert r[k] == Strip(pieces[k]);
      StripIdempotent(pieces[k]);
    }
  }

  /** Two comma-free, already stripped pieces joined by a comma come back as exactly those two origins. */
  lemma TwoPieceCsv(p0: string, p1: string, jsonLoads: JsonLoads)
    requires ',' !in p0 && ',' !in p1 && Strip(p0) == p0 && Strip(p1) == p1
    ensures ParseAllowedOrigins(Str(p0 + [','] + p1), jsonLoads) == Ok([p0, p1])
  {
    var s := p0 + [','] + p1;
    SplitAfterPiece(p0, p1, ',');
    SplitNoSeparator(p1, ',');
    assert Split(s, ',') == [p0, p1];
    assert s[|p0|] == ',';
    CommaIsNotWildcard(s);
    assert CsvOrigins(s) == [p0, p1];
  }

  /** The branch order in action: a two-element JSON list is split at its comma, not parsed. */
  lemma JsonListWithCommaIsSplit(s: string, jsonLoads: JsonLoads)
    requires s == "[\"a\",\"b\"]"
    ensures ParseAllowedOrigins(Str(s), jsonLoads) == Ok(["[\"a\"", "\"b\"]"])
  {
    var p0, p1 := "[\"a\"", "\"b\"]";
    AlreadyStripped(p0);
    AlreadyStripped(p1);
    assert p0 + [','] + p1 == s;
    TwoPieceCsv(p0, p1, jsonLoads);
  }

  /**
   * A comma-free string whose stripped form opens a bracket is handed, unstripped,
   * to `json.loads`; its failure becomes the "valid JSON list" error.
   */
  lemma JsonBranch(s: string, jsonLoads: JsonLoads)
    requires ',' !in s && LooksLikeJsonList(s)
    ensures ParseAllowedOrigins(Str(s), jsonLoads) ==
      match jsonLoads(s)
      case Some(origins) => Ok(origins)
      case None => Err(InvalidJsonList)
  {
    assert Strip(s)[0] == '[';
  }

  /** Any other string becomes a one-element list holding the string unstripped. */
  lemma SingleString(s: string, jsonLoads: JsonLoads)
    requires ',' !in s && !IsWildcard(s) && !LooksLikeJsonList(s)
    ensures ParseAllowedOrigins(Str(s), jsonLoads) == Ok([s])
  {
  }

  /** A list passes through unchanged, so the validator is idempotent on its own results. */
  lemma {:induction false} ListPassThrough(v: RawValue, jsonLoads: JsonLoads)
    requires ParseAllowedOrigins(v, jsonLoads).Ok?
    ensures var origins := ParseAllowedOrigins(v, jsonLoads).value;
      ParseAllowedOrigins(Lst(origins), jsonLoads) == Ok(origins)
  {
  }

  /** Outside the JSON branch, every string yields at least one origin. */
  lemma {:induction false} StringOutsideJsonIsNonEmpty(s: string, jsonLoads: JsonLoads)
    requires !(',' !in s && !IsWildcard(s) && LooksLikeJsonList(s))
    ensures var r := ParseAllowedOrigins(Str(s), jsonLoads); r.Ok? && |r.value| >= 1
  {
    if ',' in s {
      CsvBranch(s, jsonLoads);
    }
  }

  /**
   * The validator with the JSON test ahead of the CSV test, so that a
   * bracketed list of several origins is parsed as JSON, as the comment above
   * the JSON branch describes; every other branch is unchanged.
   */
  function ParseAllowedOriginsJsonFirst(v: RawValue, jsonLoads: JsonLoads): (r: Result<seq<string>, OriginsError>)
    ensures v.Str? && !IsWildcard(v.s) && LooksLikeJsonList(v.s) ==>
      r == match jsonLoads(v.s) case Some(origins) => Ok(origins) case None => Err(InvalidJsonList)
    ensures r.Err? <==>
      v.OtherType? || (v.Str? && !IsWildcard(v.s) && LooksLikeJsonList(v.s) && jsonLoads(v.s).None?)
  {
    match v
    case NoneValue => Ok(["*"])
    case Str(s) =>
      if IsWildcard(s) then Ok(["*"])
      else if LooksLikeJsonList(s) then
        (match jsonLoads(s)
         case Some(origins) => Ok(origins)
         case None => Err(InvalidJsonList))
      else if ',' in s then Ok(CsvOrigins(s))
      else Ok([s])
    case Lst(items) => Ok(items)
    case OtherType => Err(InvalidFormat)
  }

  /** The two orders differ only on bracketed strings that hold a comma. */
  lemma JsonFirstAgreesElsewhere(v: RawValue, jsonLoads: JsonLoads)
    requires !(v.Str? && ',' in v.s && LooksLikeJsonList(v.s))
    ensures ParseAllowedOriginsJsonFirst(v, jsonLoads) == ParseAllowedOrigins(v, jsonLoads)
  {
  }

  /** With the JSON test first, `["a","b"]` is read by `json.loads` rather than split. */
  lemma JsonFirstParsesList(s: string, jsonLoads: JsonLoads)
    requires s == "[\"a\",\"b\"]" && jsonLoads(s) == Some(["a", "b"])
    ensures ParseAllowedOriginsJsonFirst(Str(s), jsonLoads) == Ok(["a", "b"])
  {
    AlreadyStripped(s);
    assert s[..1] == "[";
  }
}
