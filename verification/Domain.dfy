/** The closed vocabulary of the gateway: data classes, actions, findings (src/domain.rs). */
module Domain {

  datatype Option<+T> = None | Some(value: T)

  datatype Result<+T, +E> = Ok(value: T) | Err(error: E)

  datatype DataClass =
    | Credentials
    | PrivateKey
    | Jwt
    | DatabaseCredential
    | Email
    | Phone
    | PrivateIpv4
    | InternalHostname
    | HomePath
    | CustomTerm
    | TokenNamespace
  {
    function PolicyKey(): string {
      match this
      case Credentials => "credentials"
      case PrivateKey => "private_keys"
      case Jwt => "security.jwt"
      case DatabaseCredential => "network.database_url"
      case Email => "pii.email"
      case Phone => "pii.phone"
      case PrivateIpv4 => "infrastructure.private_ip"
      case InternalHostname => "infrastructure.hostname"
      case HomePath => "filesystem.home_path"
      case CustomTerm => "custom.term"
      case TokenNamespace => "agentveil.token_namespace"
    }

    function TokenLabel(): string {
      match this
      case Email => "EMAIL"
      case Phone => "PHONE"
      case PrivateIpv4 => "IPV4"
      case InternalHostname => "HOST"
      case HomePath => "PATH"
      case CustomTerm => "TERM"
      case _ => "BLOCKED"
    }

    /** Position in the declaration order. */
    function Rank(): nat {
      match this
      case Credentials => 0
      case PrivateKey => 1
      case Jwt => 2
      case DatabaseCredential => 3
      case Email => 4
      case Phone => 5
      case PrivateIpv4 => 6
      case InternalHostname => 7
      case HomePath => 8
      case CustomTerm => 9
      case TokenNamespace => 10
    }

    predicate HardBlock() {
      Credentials? || PrivateKey? || Jwt? || DatabaseCredential? || TokenNamespace?
    }
  }

  datatype Action = Block | Mask | Tokenize | Allow {
    function Precedence(): nat {
      match this
      case Block => 4
      case Mask => 3
      case Tokenize => 2
      case Allow => 1
    }
  }

  datatype DetectorId =
    | AgentVeilTokenNamespace
    | OpenAiApiKey
    | GithubToken
    | AwsAccessKeyId
    | AwsSecretAssignment
    | GoogleApiKey
    | StripeSecretKey
    | SlackToken
    | PemPrivateKey
    | CredentialedDatabaseUrl
    | BearerCredential
    | JwtDetector
    | EnvCredentialAssignment
    | EmailDetector
    | PhoneDetector
    | PrivateIpv4Detector
    | InternalHostnameDetector
    | HomePathDetector
    | CustomTermDetector
  {
    /** Position in the declaration order, which is what the derived ordering compares. */
    function Rank(): nat {
      match this
      case AgentVeilTokenNamespace => 0
      case OpenAiApiKey => 1
      case GithubToken => 2
      case AwsAccessKeyId => 3
      case AwsSecretAssignment => 4
      case GoogleApiKey => 5
      case StripeSecretKey => 6
      case SlackToken => 7
      case PemPrivateKey => 8
      case CredentialedDatabaseUrl => 9
      case BearerCredential => 10
      case JwtDetector => 11
      case EnvCredentialAssignment => 12
      case EmailDetector => 13
      case PhoneDetector => 14
      case PrivateIpv4Detector => 15
      case InternalHostnameDetector => 16
      case HomePathDetector => 17
      case CustomTermDetector => 18
    }
  }

  datatype Confidence = High | Contextual

  datatype FieldClass =
    | Instructions
    | MessageText
    | AgentMessageText
    | FunctionArguments
    | FunctionOutput
    | CustomToolInput
    | CustomToolOutput
    | ToolDescription
    | ToolSchemaText
    | ReasoningSummary
    | ClientMetadata
    | StructuralMetadata
  {
    /** Position in the declaration order. */
    function Rank(): nat {
      match this
      case Instructions => 0
      case MessageText => 1
      case AgentMessageText => 2
      case FunctionArguments => 3
      case FunctionOutput => 4
      case CustomToolInput => 5
      case CustomToolOutput => 6
      case ToolDescription => 7
      case ToolSchemaText => 8
      case ReasoningSummary => 9
      case ClientMetadata => 10
      case StructuralMetadata => 11
    }
  }

  /** A half-open byte range. */
  datatype Span = Span(start: nat, end: nat) {
    predicate Nonempty() { start < end }

    predicate Contains(position: nat) { start <= position < end }

    predicate Within(outer: Span) { outer.start <= start && end <= outer.end }

    /** Strict overlap: touching spans do not overlap. */
    predicate Overlaps(other: Span) { start < other.end && other.start < end }
  }

  datatype Finding = Finding(dataClass: DataClass, detector: DetectorId, confidence: Confidence, span: Span)

  /** A finding together with the action policy chose for it. */
  datatype Planned = Planned(finding: Finding, action: Action)

  const U64_MAX: nat := 0xFFFF_FFFF_FFFF_FFFF
}
