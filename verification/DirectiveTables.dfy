/**
 * Which directives a mask admits and which override each other, listed by kind.
 */
module DirectiveTables {
  import opened Text
  import opened Directives

  predicate HasLimit(mask: bv8) { mask & 0x01 == 0x01 }

  predicate HasAuth(mask: bv8) { mask & 0x02 == 0x02 }

  predicate HasFileInfo(mask: bv8) { mask & 0x04 == 0x04 }

  predicate HasIndexes(mask: bv8) { mask & 0x08 == 0x08 }

  predicate HasOptions(mask: bv8) { mask & 0x10 == 0x10 }

  predicate InLimit(kind: Kind) { kind.Order? || kind.AllowFrom? || kind.DenyFrom? || kind.Limit? || kind.LimitExcept? }

  predicate InAuth(kind: Kind) {
    kind.AuthType? || kind.AuthName? || kind.AuthUserFile? || kind.RequireValidUser? || kind.RequireUser?
    || kind.RequireGroup? || kind.RequireAllGranted? || kind.RequireAllDenied? || kind.RequireIp?
    || kind.RequireNotIp? || kind.RequireAnyOpen? || kind.RequireAllOpen? || kind.RequireEnv?
    || kind.Satisfy?
  }

  predicate InRewrite(kind: Kind) {
    kind.RewriteEngine? || kind.RewriteBase? || kind.RewriteCond? || kind.RewriteRule? || kind.RewriteOptions?
    || kind.RewriteMap?
  }

  predicate InFileInfo(kind: Kind) {
    InRewrite(kind)
    || kind.AddType? || kind.AddHandler? || kind.SetHandler? || kind.ForceType? || kind.AddCharset?
    || kind.AddEncoding? || kind.AddDefaultCharset? || kind.DefaultType? || kind.RemoveType? || kind.RemoveHandler?
    || kind.Action? || kind.Redirect? || kind.RedirectMatch? || kind.ErrorDocument? || kind.FallbackResource?
  }

  predicate InExpires(kind: Kind) { (kind.ExpiresActive? || kind.ExpiresByType? || kind.ExpiresDefault?) }

  /** Each bit admits the kinds of its list; Options needs two bits; what is on no list is always admitted. */
  lemma MaskAdmits(mask: bv8, kind: Kind)
    ensures Permitted(mask, kind) <==>
      if InLimit(kind) then HasLimit(mask)
      else if InAuth(kind) then HasAuth(mask)
      else if InFileInfo(kind) then HasFileInfo(mask)
      else if kind == DirectoryIndex then HasIndexes(mask)
      else if kind == Options then HasOptions(mask) && HasIndexes(mask)
      else InExpires(kind) ==> HasOptions(mask)
  {
    BothBits(mask);
    CategoryOf(kind);
    hide Category, InLimit, InAuth, InFileInfo, InExpires;
    var c := Category(kind);
    assert c == 0xFF ==> Permitted(mask, kind);
  }

  lemma CategoryOf(kind: Kind)
    ensures Category(kind)
         == if InLimit(kind) then 0x01
            else if InAuth(kind) then 0x02
            else if InFileInfo(kind) then 0x04
            else if kind == DirectoryIndex then 0x08
            else if kind == Options then 0x18
            else if InExpires(kind) then 0x10
            else 0xFF
  {
    hide Category;
    if InLimit(kind) { LimitIs(kind); }
    else if InAuth(kind) { AuthIs(kind); }
    else if InFileInfo(kind) { FileInfoIs(kind); }
    else if InExpires(kind) { ExpiresIs(kind); }
    else if kind != DirectoryIndex && kind != Options { FreeIs(kind); }
    else { IndexesAndOptions(); }
  }

  lemma IndexesAndOptions()
    ensures Category(DirectoryIndex) == 0x08 && Category(Options) == 0x18
  {
  }

  lemma LimitIs(kind: Kind)
    requires InLimit(kind)
    ensures Category(kind) == 0x01
  {
  }

  lemma AuthIs(kind: Kind)
    requires InAuth(kind)
    ensures Category(kind) == 0x02
  {
  }

  lemma RewriteIs(kind: Kind)
    requires InRewrite(kind)
    ensures Category(kind) == 0x04
  {
  }

  lemma FileInfoIs(kind: Kind)
    requires InFileInfo(kind)
    ensures Category(kind) == 0x04
  {
    if InRewrite(kind) { RewriteIs(kind); }
  }

  lemma ExpiresIs(kind: Kind)
    requires InExpires(kind)
    ensures Category(kind) == 0x10
  {
  }

  lemma FreeIs(kind: Kind)
    requires !InLimit(kind) && !InAuth(kind) && !InFileInfo(kind) && !InExpires(kind)
    requires kind != DirectoryIndex && kind != Options
    ensures Category(kind) == 0xFF
  {
  }

  lemma BothBits(mask: bv8)
    ensures mask & 0x18 == 0x18 <==> HasOptions(mask) && HasIndexes(mask)
  {
  }

  predicate Named(kind: Kind) {
    kind.HeaderSet? || kind.HeaderUnset? || kind.HeaderAppend? || kind.HeaderMerge? || kind.HeaderAdd?
    || kind.RequestHeaderSet? || kind.RequestHeaderUnset? || kind.PhpValue? || kind.PhpFlag?
    || kind.PhpAdminValue? || kind.PhpAdminFlag? || kind.Setenv? || kind.ExpiresByType? || kind.Redirect?
  }

  predicate Conditional(kind: Kind) { (kind.Setenvif? || kind.SetenvifNocase? || kind.BrowserMatch?) }

  predicate Guard(kind: Kind) {
    kind.BruteForceProtection? || kind.BruteForceAllowedAttempts? || kind.BruteForceWindow? || kind.BruteForceAction?
    || kind.BruteForceThrottleDuration? || kind.BotChallenge? || kind.BotChallengeTtl? || kind.BotChallengeDifficulty?
    || kind.BotChallengeExempt? || kind.BotChallengeTrustedProxy? || kind.BotChallengePage? || kind.BotChallengeIf?
  }

  predicate Setting(kind: Kind) {
    kind.Order? || kind.ExpiresActive? || kind.ExpiresDefault? || kind.DirectoryIndex? || kind.RateLimit?
    || kind.SecRuleEngine? || kind.EsiEnable? || kind.RewriteEngine? || kind.RewriteBase? || kind.AddDefaultCharset?
    || kind.DefaultType? || kind.Satisfy? || kind.FallbackResource?
  }

  predicate Only(kind: Kind) { Guard(kind) || Setting(kind) }

  /** What two directives must share for the deeper one to replace the other. */
  lemma OverridesBy(a: Directive, b: Directive)
    ensures Matches(a, b) <==>
      && a.kind == b.kind
      && if Named(a.kind) then a.name.Some? && a.name == b.name
         else if a.kind == ErrorDocument then a.code == b.code
         else if (a.kind.AllowFrom? || a.kind.DenyFrom?) then a.value.Some? && a.value == b.value
         else if a.kind == RedirectMatch then a.pattern.Some? && a.pattern == b.pattern
         else if Conditional(a.kind) then
           && a.name.Some? && a.name == b.name && a.attribute.Some? && a.attribute == b.attribute
           && a.pattern.Some? && a.pattern == b.pattern
         else Only(a.kind)
  {
    hide Named, Conditional, Only;
    RuleOf(a.kind);
    hide OverrideRule;
  }

  lemma RuleOf(kind: Kind)
    ensures OverrideRule(kind)
         == if Named(kind) then ByName
            else if kind == ErrorDocument then ByCode
            else if kind == AllowFrom || kind == DenyFrom then ByValue
            else if kind == RedirectMatch then ByPattern
            else if Conditional(kind) then ByVariable
            else if Only(kind) then Single
            else Never
  {
    hide OverrideRule, Named, Guard, Setting, Conditional;
    if Named(kind) { NamedIs(kind); }
    else if Only(kind) {
      if Guard(kind) {
        GuardIs(kind);
        GuardApart(kind);
      } else {
        SettingIs(kind);
        SettingApart(kind);
      }
    }
    else { OtherIs(kind); }
  }

  lemma NamedIs(kind: Kind)
    requires Named(kind)
    ensures OverrideRule(kind) == ByName
  {
  }

  lemma GuardIs(kind: Kind)
    requires Guard(kind)
    ensures OverrideRule(kind) == Single
  {
  }

  lemma SettingIs(kind: Kind)
    requires Setting(kind)
    ensures OverrideRule(kind) == Single
  {
  }

  lemma GuardApart(kind: Kind)
    requires Guard(kind)
    ensures !Named(kind) && !Conditional(kind)
    ensures kind != ErrorDocument && kind != AllowFrom && kind != DenyFrom && kind != RedirectMatch
  {
  }

  lemma SettingApart(kind: Kind)
    requires Setting(kind)
    ensures !Named(kind) && !Conditional(kind)
    ensures kind != ErrorDocument && kind != AllowFrom && kind != DenyFrom && kind != RedirectMatch
  {
  }

  lemma OtherIs(kind: Kind)
    requires !Named(kind) && !Only(kind)
    ensures OverrideRule(kind)
         == if kind == ErrorDocument then ByCode
            else if kind == AllowFrom || kind == DenyFrom then ByValue
            else if kind == RedirectMatch then ByPattern
            else if Conditional(kind) then ByVariable
            else Never
  {
  }

  /** The kinds that hold directives of their own, other than IfModule. */
  lemma Containers(kind: Kind)
    ensures IsRequire(kind) <==> kind == RequireAnyOpen || kind == RequireAllOpen
    ensures var others := [Files, FilesMatch, If, Elseif, Else, Limit, LimitExcept];
            IsBlock(kind) <==> IsRequire(kind) || kind in others
  {
    var others := [Files, FilesMatch, If, Elseif, Else, Limit, LimitExcept];
    if IsBlock(kind) && !IsRequire(kind) {
      var i := if kind.Files? then 0 else if kind.FilesMatch? then 1 else if kind.If? then 2
               else if kind.Elseif? then 3 else if kind.Else? then 4 else if kind.Limit? then 5 else 6;
      assert others[i] == kind;
    }
  }
}
