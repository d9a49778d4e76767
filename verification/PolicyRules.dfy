/** The policy and the facts its validation establishes (src/policy.rs). */
module PolicyRules {
  import opened Domain

  const MAX_RESTORATION_TTL_SECONDS: nat := 30 * 60
  const DEFAULT_RESTORATION_TTL_SECONDS: nat := 15 * 60

  datatype CategoryRule = CategoryRule(action: Action, restorable: bool, ttlSeconds: Option<nat>) {
    function Ttl(): nat {
      match ttlSeconds
      case Some(t) => t
      case None => DEFAULT_RESTORATION_TTL_SECONDS
    }
  }

  datatype DetectorSettings = DetectorSettings(
    internalHostnameSuffixes: seq<string>,
    customTerms: seq<string>,
    homePrefixes: seq<string>)

  datatype Policy = Policy(
    version: nat,
    name: string,
    unknownSensitive: Action,
    rawLogging: bool,
    maxRequestBytes: nat,
    ledgerMaxEntries: nat,
    categories: map<string, CategoryRule>,
    detectors: DetectorSettings)

  datatype PolicyError =
    | UnsupportedVersion(version: nat)
    | UnsafePolicyName
    | RawLoggingForbidden
    | UnknownSensitiveMustBlock
    | InvalidMaxRequestBytes
    | InvalidLedgerCapacity
    | UnknownCategory
    | MissingCategory(key: string)
    | HardBlockInvariant(dataClass: DataClass)
    | HardBlockRestoration(dataClass: DataClass)
    | RestorationRequiresTokenize(dataClass: DataClass)
    | TokenizationRequiresRestoration(dataClass: DataClass)
    | TtlRequiresTokenize(dataClass: DataClass)
    | InvalidTtl(dataClass: DataClass)
    | TooManyDetectorTerms
    | UnsafeDetectorTerm

  const ALL_DATA_CLASSES: seq<DataClass> :=
    [ Credentials, PrivateKey, Jwt, DatabaseCredential, Email, Phone, PrivateIpv4, InternalHostname, HomePath,
      CustomTerm, TokenNamespace ]

  predicate KnownKey(key: string) {
    exists c: DataClass :: c in ALL_DATA_CLASSES && c.PolicyKey() == key
  }

  predicate IsSafeSlug(s: string) {
    0 < |s| <= 48 && forall i :: 0 <= i < |s| ==> 'a' <= s[i] <= 'z' || '0' <= s[i] <= '9' || s[i] == '-' || s[i] == '_'
  }

  function ValidateRule(c: DataClass, rule: CategoryRule): Option<PolicyError> {
    if c.HardBlock() && rule.action != Block then Some(HardBlockInvariant(c))
    else if c.HardBlock() && rule.restorable then Some(HardBlockRestoration(c))
    else if rule.restorable && rule.action != Tokenize then Some(RestorationRequiresTokenize(c))
    else if rule.action == Tokenize && !rule.restorable then Some(TokenizationRequiresRestoration(c))
    else if rule.action != Tokenize && rule.ttlSeconds.Some? then Some(TtlRequiresTokenize(c))
    else if rule.action == Tokenize && (rule.Ttl() == 0 || rule.Ttl() > MAX_RESTORATION_TTL_SECONDS)
      then Some(InvalidTtl(c))
    else None
  }

  function ValidateRules(classes: seq<DataClass>, categories: map<string, CategoryRule>): Option<PolicyError> {
    if classes == [] then None
    else
      var c := classes[0];
      if c.PolicyKey() !in categories then Some(MissingCategory(c.PolicyKey()))
      else if ValidateRule(c, categories[c.PolicyKey()]).Some? then ValidateRule(c, categories[c.PolicyKey()])
      else ValidateRules(classes[1..], categories)
  }

  /** A control character of U+0000 to U+001F or U+007F to U+009F starts at byte `i`. */
  predicate ControlAt(term: string, i: nat)
    requires i < |term|
  {
    || term[i] as int < 0x20 || term[i] as int == 0x7F
    || (term[i] as int == 0xC2 && i + 1 < |term| && 0x80 <= term[i + 1] as int <= 0x9F)
  }

  predicate SafeTerm(term: string) {
    3 <= |term| <= 128 && forall i :: 0 <= i < |term| ==> !ControlAt(term, i)
  }

  function ValidateTerms(terms: seq<string>): Option<PolicyError> {
    if terms == [] then None
    else if !SafeTerm(terms[0]) then Some(UnsafeDetectorTerm)
    else ValidateTerms(terms[1..])
  }

  function ValidateDetectorSettings(d: DetectorSettings): Option<PolicyError> {
    if |d.internalHostnameSuffixes| > 64 || |d.customTerms| > 128 || |d.homePrefixes| > 16
    then Some(TooManyDetectorTerms)
    else ValidateTerms(d.internalHostnameSuffixes + d.customTerms + d.homePrefixes)
  }

  function Validate(p: Policy): Result<Policy, PolicyError> {
    if p.version != 1 then Err(UnsupportedVersion(p.version))
    else if !IsSafeSlug(p.name) then Err(UnsafePolicyName)
    else if p.rawLogging then Err(RawLoggingForbidden)
    else if p.unknownSensitive != Block then Err(UnknownSensitiveMustBlock)
    else if !(1_024 <= p.maxRequestBytes <= 8 * 1_024 * 1_024) then Err(InvalidMaxRequestBytes)
    else if !(1 <= p.ledgerMaxEntries <= 16_384) then Err(InvalidLedgerCapacity)
    else if exists key :: key in p.categories && !KnownKey(key) then Err(UnknownCategory)
    else
      match ValidateRules(ALL_DATA_CLASSES, p.categories)
      case Some(error) => Err(error)
      case None =>
        match ValidateDetectorSettings(p.detectors)
        case Some(error) => Err(error)
        case None => Ok(p)
  }

  // ----- what a validated policy promises

  /** Exactly the rules that may stand for a class: restorable means tokenized, and then for at most half an hour. */
  predicate Sanctioned(c: DataClass, rule: CategoryRule) {
    && (c.HardBlock() ==> rule.action == Block)
    && (rule.restorable <==> rule.action == Tokenize)
    && (rule.action == Tokenize ==> 0 < rule.Ttl() <= MAX_RESTORATION_TTL_SECONDS)
    && (rule.ttlSeconds.Some? ==> rule.action == Tokenize)
  }

  ghost predicate Covers(categories: map<string, CategoryRule>) {
    forall c: DataClass {:trigger c.PolicyKey()} ::
      c.PolicyKey() in categories && Sanctioned(c, categories[c.PolicyKey()])
  }

  ghost predicate Enforceable(p: Policy) {
    && p.version == 1 && IsSafeSlug(p.name) && !p.rawLogging && p.unknownSensitive == Block
    && 1_024 <= p.maxRequestBytes <= 8 * 1_024 * 1_024
    && 1 <= p.ledgerMaxEntries <= 16_384
    && (forall key :: key in p.categories ==> KnownKey(key))
    && Covers(p.categories) && Bounded(p.detectors)
  }

  /** Few enough detector terms, and every one of them short and free of control characters. */
  ghost predicate Bounded(d: DetectorSettings) {
    && |d.internalHostnameSuffixes| <= 64 && |d.customTerms| <= 128 && |d.homePrefixes| <= 16
    && (forall term :: term in d.internalHostnameSuffixes ==> SafeTerm(term))
    && (forall term :: term in d.customTerms ==> SafeTerm(term))
    && (forall term :: term in d.homePrefixes ==> SafeTerm(term))
  }

  lemma {:induction false} TermsValid(terms: seq<string>)
    ensures ValidateTerms(terms).None? <==> forall term :: term in terms ==> SafeTerm(term)
  {
    hide SafeTerm;
    if terms != [] {
      assert terms == [terms[0]] + terms[1..];
      TermsValid(terms[1..]);
    }
  }

  lemma SettingsValid(d: DetectorSettings)
    ensures ValidateDetectorSettings(d).None? <==> Bounded(d)
  {
    hide SafeTerm, ValidateTerms;
    TermsValid(d.internalHostnameSuffixes + d.customTerms + d.homePrefixes);
  }

  lemma RuleValid(c: DataClass, rule: CategoryRule)
    ensures ValidateRule(c, rule).None? <==> Sanctioned(c, rule)
  {
  }

  lemma {:induction false} RulesValid(classes: seq<DataClass>, categories: map<string, CategoryRule>)
    ensures ValidateRules(classes, categories).None? <==>
            forall c :: c in classes ==> c.PolicyKey() in categories && Sanctioned(c, categories[c.PolicyKey()])
  {
    hide ValidateRule, Sanctioned;
    if classes != [] {
      var c := classes[0];
      assert classes == [c] + classes[1..];
      if c.PolicyKey() in categories {
        RuleValid(c, categories[c.PolicyKey()]);
      }
      RulesValid(classes[1..], categories);
    }
  }

  lemma AllClassesListed(c: DataClass)
    ensures c in ALL_DATA_CLASSES
  {
    var all := ALL_DATA_CLASSES;
    assert all[0] == Credentials && all[1] == PrivateKey && all[2] == Jwt && all[3] == DatabaseCredential
             && all[4] == Email;
    assert all[5] == Phone && all[6] == PrivateIpv4 && all[7] == InternalHostname && all[8] == HomePath;
    assert all[9] == CustomTerm && all[10] == TokenNamespace;
  }

  /** Validation accepts exactly the enforceable policies, and returns them unchanged. */
  lemma ValidateIff(p: Policy)
    ensures Validate(p).Ok? <==> Enforceable(p)
    ensures Validate(p).Ok? ==> Validate(p).value == p
  {
    hide ValidateRules, Sanctioned, KnownKey, ValidateDetectorSettings, Bounded;
    RulesValid(ALL_DATA_CLASSES, p.categories);
    SettingsValid(p.detectors);
    forall c: DataClass
      ensures c in ALL_DATA_CLASSES
    {
      AllClassesListed(c);
    }
  }

  function RuleFor(p: Policy, c: DataClass): CategoryRule
    requires Covers(p.categories)
  {
    p.categories[c.PolicyKey()]
  }

  /** A token is issued for a positive time of at most half an hour. */
  lemma TtlBounded(p: Policy, c: DataClass)
    requires Covers(p.categories)
    ensures 0 < RuleFor(p, c).Ttl() <= MAX_RESTORATION_TTL_SECONDS
  {
    assert Sanctioned(c, p.categories[c.PolicyKey()]);
  }

  /** Which rule of a validated policy stands for which class. */
  lemma RulesByKey(p: Policy)
    requires Covers(p.categories)
    ensures "credentials" in p.categories && RuleFor(p, Credentials) == p.categories["credentials"]
    ensures "private_keys" in p.categories && RuleFor(p, PrivateKey) == p.categories["private_keys"]
    ensures "security.jwt" in p.categories && RuleFor(p, Jwt) == p.categories["security.jwt"]
    ensures "network.database_url" in p.categories
            && RuleFor(p, DatabaseCredential) == p.categories["network.database_url"]
    ensures "agentveil.token_namespace" in p.categories
            && RuleFor(p, TokenNamespace) == p.categories["agentveil.token_namespace"]
    ensures "pii.email" in p.categories && RuleFor(p, Email) == p.categories["pii.email"]
    ensures "pii.phone" in p.categories && RuleFor(p, Phone) == p.categories["pii.phone"]
    ensures "infrastructure.private_ip" in p.categories
            && RuleFor(p, PrivateIpv4) == p.categories["infrastructure.private_ip"]
    ensures "infrastructure.hostname" in p.categories
            && RuleFor(p, InternalHostname) == p.categories["infrastructure.hostname"]
    ensures "filesystem.home_path" in p.categories && RuleFor(p, HomePath) == p.categories["filesystem.home_path"]
    ensures "custom.term" in p.categories && RuleFor(p, CustomTerm) == p.categories["custom.term"]
  {
    hide Sanctioned;
    assert Credentials.PolicyKey() in p.categories && PrivateKey.PolicyKey() in p.categories;
    assert Jwt.PolicyKey() in p.categories && DatabaseCredential.PolicyKey() in p.categories;
    assert TokenNamespace.PolicyKey() in p.categories && Email.PolicyKey() in p.categories;
    assert Phone.PolicyKey() in p.categories && PrivateIpv4.PolicyKey() in p.categories;
    assert InternalHostname.PolicyKey() in p.categories && HomePath.PolicyKey() in p.categories;
    assert CustomTerm.PolicyKey() in p.categories;
  }

  /** A validated policy blocks the five classes of secrets, and restores nothing after half an hour. */
  lemma SecretsBlocked(p: Policy, key: string)
    requires Validate(p).Ok? && key in p.categories
    ensures key in {"credentials", "private_keys", "security.jwt", "network.database_url",
                    "agentveil.token_namespace"} ==>
              p.categories[key].action == Block
    ensures p.categories[key].action == Tokenize && p.categories[key].ttlSeconds.Some? ==>
              0 < p.categories[key].ttlSeconds.value <= 1_800
  {
    hide Validate, Bounded;
    ValidateIff(p);
    RulesByKey(p);
    var c: DataClass :| c in ALL_DATA_CLASSES && c.PolicyKey() == key;
    assert Sanctioned(c, p.categories[c.PolicyKey()]);
  }
}
