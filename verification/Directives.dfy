/**
 * Directives as the walker sees them: their kind, the fields that decide
 * whether one overrides another, and the override category of each kind.
 */
module Directives {
  import opened Text

  datatype Kind =
    | HeaderSet | HeaderUnset | HeaderAppend | HeaderMerge | HeaderAdd | RequestHeaderSet | RequestHeaderUnset
    | PhpValue | PhpFlag | PhpAdminValue | PhpAdminFlag | Order | AllowFrom | DenyFrom | Redirect | RedirectMatch
    | ErrorDocument | FilesMatch | ExpiresActive | ExpiresByType | Setenv | Setenvif | BrowserMatch
    | BruteForceProtection | BruteForceAllowedAttempts | BruteForceWindow | BruteForceAction
    | BruteForceThrottleDuration | Ifmodule | Options | Files | HeaderAlwaysSet | HeaderAlwaysUnset
    | HeaderAlwaysAppend | HeaderAlwaysMerge | HeaderAlwaysAdd | ExpiresDefault | RequireAllGranted
    | RequireAllDenied | RequireIp | RequireNotIp | RequireAnyOpen | RequireAllOpen | Limit | LimitExcept | AuthType
    | AuthName | AuthUserFile | RequireValidUser | AddHandler | SetHandler | AddType | DirectoryIndex | ForceType
    | AddEncoding | AddCharset | BruteForceXForwardedFor | BruteForceWhitelist | BruteForceProtectPath
    | SetenvifNocase | HeaderEdit | HeaderEditStar | HeaderAlwaysEdit | HeaderAlwaysEditStar | RewriteEngine
    | RewriteBase | RewriteCond | RewriteRule | AddDefaultCharset | DefaultType | Satisfy | RewriteOptions
    | RewriteMap | If | Elseif | Else | RequireEnv | RemoveType | RemoveHandler | Action | RequireUser
    | RequireGroup | BruteForceTrustedProxy | FallbackResource | CacheEnable | CacheDisable | CacheMaxExpire
    | CacheDefaultExpire | RateLimit | SecRuleEngine | EsiEnable | BotChallenge | BotChallengeTtl
    | BotChallengeDifficulty | BotChallengeExempt | BotChallengeTrustedProxy | BotChallengePage | BotChallengeIf

  /** `rest` stands for the fields that neither merging nor filtering looks at. */
  datatype Directive = Directive(
    kind: Kind, name: Option<string>, value: Option<string>, code: int,
    pattern: Option<string>, attribute: Option<string>, rest: string,
    children: seq<Directive>, conditions: seq<Directive>)

  predicate IsRequire(kind: Kind) { kind.RequireAnyOpen? || kind.RequireAllOpen? }

  /** Containers other than IfModule. */
  predicate IsBlock(kind: Kind) {
    kind.Files? || kind.FilesMatch? || kind.If? || kind.Elseif? || kind.Else? || kind.Limit? || kind.LimitExcept?
    || IsRequire(kind)
  }

  // ------------------------------------------------------------ override categories

  const LIMIT: bv8 := 0x01
  const AUTH: bv8 := 0x02
  const FILEINFO: bv8 := 0x04
  const INDEXES: bv8 := 0x08
  const OPTIONS: bv8 := 0x10
  const ALL: bv8 := 0xFF

  /** directive_category. */
  function Category(kind: Kind): bv8 {
    match kind
    case Order | AllowFrom | DenyFrom | Limit | LimitExcept => LIMIT
    case AuthType | AuthName | AuthUserFile | RequireValidUser | RequireUser | RequireGroup | RequireAllGranted
       | RequireAllDenied | RequireIp | RequireNotIp | RequireAnyOpen | RequireAllOpen | RequireEnv | Satisfy => AUTH
    case AddType | AddHandler | SetHandler | ForceType | AddCharset | AddEncoding | AddDefaultCharset
       | DefaultType | RemoveType | RemoveHandler | Action | Redirect | RedirectMatch | ErrorDocument
       | FallbackResource | RewriteEngine | RewriteBase | RewriteCond | RewriteRule | RewriteOptions
       | RewriteMap => FILEINFO
    case DirectoryIndex => INDEXES
    case If | Elseif | Else => ALL
    case Options => OPTIONS | INDEXES
    case ExpiresActive | ExpiresByType | ExpiresDefault => OPTIONS
    case _ => ALL
  }

  predicate Permitted(mask: bv8, kind: Kind) {
    Category(kind) == ALL || mask & Category(kind) == Category(kind)
  }

  // ----------------------------------------------------------------- overriding

  datatype Rule = ByName | ByCode | ByValue | ByPattern | ByVariable | Single | Never

  /** The cases of directives_match_for_override. */
  function OverrideRule(kind: Kind): Rule {
    match kind
    case HeaderSet | HeaderUnset | HeaderAppend | HeaderMerge | HeaderAdd | RequestHeaderSet
       | RequestHeaderUnset | PhpValue | PhpFlag | PhpAdminValue | PhpAdminFlag | Setenv | ExpiresByType
       | Redirect => ByName
    case ErrorDocument => ByCode
    case AllowFrom | DenyFrom => ByValue
    case RedirectMatch => ByPattern
    case Setenvif | SetenvifNocase | BrowserMatch => ByVariable
    case Order | ExpiresActive | ExpiresDefault | DirectoryIndex | BruteForceProtection
       | BruteForceAllowedAttempts | BruteForceWindow | BruteForceAction | BruteForceThrottleDuration
       | RateLimit | SecRuleEngine | EsiEnable | BotChallenge | BotChallengeTtl | BotChallengeDifficulty
       | BotChallengeExempt | BotChallengeTrustedProxy | BotChallengePage | BotChallengeIf | RewriteEngine
       | RewriteBase | AddDefaultCharset | DefaultType | Satisfy | FallbackResource => Single
    case _ => Never
  }

  predicate SameText(a: Option<string>, b: Option<string>) { a.Some? && b.Some? && a.value == b.value }

  /** directives_match_for_override. */
  predicate Matches(a: Directive, b: Directive) {
    a.kind == b.kind &&
    match OverrideRule(a.kind)
    case ByName => SameText(a.name, b.name)
    case ByCode => a.code == b.code
    case ByValue => SameText(a.value, b.value)
    case ByPattern => SameText(a.pattern, b.pattern)
    case ByVariable => SameText(a.name, b.name) && SameText(a.attribute, b.attribute) && SameText(a.pattern, b.pattern)
    case Single => true
    case Never => false
  }

  /** What identifies a directive across levels; a directive without a key is never overridden. */
  datatype Key = Key(kind: Kind, texts: seq<string>, code: int)

  function KeyOf(d: Directive): Option<Key> {
    match OverrideRule(d.kind)
    case ByName => if d.name.Some? then Some(Key(d.kind, [d.name.value], 0)) else None
    case ByCode => Some(Key(d.kind, [], d.code))
    case ByValue => if d.value.Some? then Some(Key(d.kind, [d.value.value], 0)) else None
    case ByPattern => if d.pattern.Some? then Some(Key(d.kind, [d.pattern.value], 0)) else None
    case ByVariable =>
      if d.name.Some? && d.attribute.Some? && d.pattern.Some? then
        Some(Key(d.kind, [d.name.value, d.attribute.value, d.pattern.value], 0))
      else None
    case Single => Some(Key(d.kind, [], 0))
    case Never => None
  }

  /** Matching is equality of keys, so it is symmetric and transitive. */
  lemma MatchesIsKey(a: Directive, b: Directive)
    ensures Matches(a, b) <==> KeyOf(a).Some? && KeyOf(a) == KeyOf(b)
  {
    hide OverrideRule;
    if a.kind == b.kind && OverrideRule(a.kind).ByVariable? && KeyOf(a).Some? && KeyOf(b).Some? {
      var s, t := KeyOf(a).value.texts, KeyOf(b).value.texts;
      assert s == t <==> s[0] == t[0] && s[1] == t[1] && s[2] == t[2];
    }
    if KeyOf(a).Some? && KeyOf(b).Some? && |KeyOf(a).value.texts| == 1 == |KeyOf(b).value.texts| {
      assert KeyOf(a).value.texts[0] == KeyOf(b).value.texts[0] <==> KeyOf(a).value.texts == KeyOf(b).value.texts;
    }
  }
}
