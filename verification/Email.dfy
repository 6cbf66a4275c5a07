/** Canonical forms of email addresses. */
module Emails {
  import opened Wrappers
  import opened Text

  // ----- tables -----

  datatype Rule = DotsDontMatter | RemoveSubaddressing

  datatype Provider = Gmail | Icloud | Outlook | Proton | Fastmail | Zoho | Yahoo

  function RulesOf(provider: Provider): seq<Rule> {
    match provider
    case Gmail => [DotsDontMatter, RemoveSubaddressing]
    case Icloud => [DotsDontMatter, RemoveSubaddressing]
    case Yahoo => []
    case _ => [RemoveSubaddressing]
  }

  function ProviderOf(domain: string): Option<Provider> {
    if domain in ["gmail.com", "googlemail.com"] then Some(Gmail)
    else if domain in ["icloud.com", "me.com", "mac.com"] then Some(Icloud)
    else if domain in ["outlook.com", "hotmail.com", "live.com", "msn.com"] then Some(Outlook)
    else if domain in ["proton.me", "protonmail.com", "pm.me"] then Some(Proton)
    else if domain in ["fastmail.com", "fastmail.fm"] then Some(Fastmail)
    else if domain in ["zoho.com", "zohomail.com"] then Some(Zoho)
    else if domain in ["yahoo.com", "yahoo.co.uk", "yahoo.ca", "yahoo.com.au"] then Some(Yahoo)
    else None
  }

  /** A domain's rules; an unlisted one has none. */
  function DomainRules(domain: string): seq<Rule> {
    var p := ProviderOf(domain);
    if p.Some? then RulesOf(p.value) else []
  }

  /** The two lower-case names that every record inherits, so that looking them up finds an object. */
  predicate Inherited(domain: string) {
    domain == "constructor" || domain == "__proto__"
  }

  /** The table of domains that mean another one, read as the record lookup reads it. */
  function Distinct(domain: string): string {
    if domain == "googlemail.com" then "gmail.com"
    else if domain == "constructor" then "function Object() { [native code] }"
    else if domain == "__proto__" then "[object Object]"
    else domain
  }

  // ----- rules -----

  /** What comes before, and after, the first `c`. */
  function Before(s: string, c: char): string {
    s[..IndexOf(s, c)]
  }

  function After(s: string, c: char): string {
    if IndexOf(s, c) == |s| then "" else s[IndexOf(s, c) + 1..]
  }

  function RemoveDots(s: string): string {
    if s == "" then "" else (if s[0] == '.' then "" else [s[0]]) + RemoveDots(s[1..])
  }

  function Rewrite(rule: Rule, local: string): string {
    match rule
    case DotsDontMatter => RemoveDots(local)
    case RemoveSubaddressing => Before(local, '+')
  }

  function RewriteAll(rules: seq<Rule>, local: string): string {
    if rules == [] then local else Rewrite(rules[|rules| - 1], RewriteAll(rules[..|rules| - 1], local))
  }

  class Parts {
    var local: string
    var domain: string

    constructor (local: string, domain: string)
      ensures this.local == local && this.domain == domain
    {
      this.local := local;
      this.domain := domain;
    }

    method Apply(rule: Rule)
      modifies this
      ensures local == Rewrite(rule, old(local)) && domain == old(domain)
    {
      match rule {
        case DotsDontMatter =>
          var kept, i := "", 0;
          ghost var whole := local;
          while i < |local|
            invariant 0 <= i <= |local| && local == whole && domain == old(domain)
            invariant kept + RemoveDots(local[i..]) == RemoveDots(whole)
          {
            assert local[i..][1..] == local[i + 1..];
            if local[i] != '.' { kept := kept + [local[i]]; }
            i := i + 1;
          }
          local := kept;
        case RemoveSubaddressing =>
          local := Before(local, '+');
      }
    }
  }

  // ----- canonical forms -----

  function Local(email: string): string {
    Before(Lower(email), '@')
  }

  /** The text between the first two `@`, "" without one. */
  function Domain(email: string): string {
    Before(After(Lower(email), '@'), '@')
  }

  function Clean(email: string): string {
    if Domain(email) == "" then Lower(email)
    else
      var domain := Distinct(Domain(email));
      RewriteAll(DomainRules(domain), Local(email)) + "@" + domain
  }

  method CleanEmail(email: string) returns (clean: string)
    ensures clean == Clean(email)
  {
    hide ProviderOf, Distinct, Rewrite;
    var lower := Lower(email);
    var localRaw, domainRaw := Before(lower, '@'), Before(After(lower, '@'), '@');
    if domainRaw == "" {
      return lower;
    }
    var parts := new Parts(localRaw, Distinct(domainRaw));
    var rules := DomainRules(parts.domain);
    for i := 0 to |rules|
      invariant parts.domain == Distinct(domainRaw)
      invariant parts.local == RewriteAll(rules[..i], localRaw)
    {
      assert rules[..i + 1][..i] == rules[..i];
      parts.Apply(rules[i]);
    }
    assert rules[..|rules|] == rules;
    return parts.local + "@" + parts.domain;
  }

  function AbuseKey(email: string): string {
    var clean := Clean(email);
    var local, domain := Before(clean, '@'), Before(After(clean, '@'), '@');
    if domain == "" then local else Before(local, '+') + "@" + domain
  }

  predicate IsProviderCanonicalized(email: string) {
    ProviderOf(Distinct(Domain(email))).Some?
  }

  // ----- what the tables say -----

  lemma RulesByDomain(d: string)
    ensures d in ["gmail.com", "icloud.com", "me.com", "mac.com"] ==> DomainRules(d) == [DotsDontMatter, RemoveSubaddressing]
    ensures (d in ["outlook.com", "hotmail.com", "live.com", "msn.com", "proton.me", "protonmail.com", "pm.me"]
             || d in ["fastmail.com", "fastmail.fm", "zoho.com", "zohomail.com"]) ==> DomainRules(d) == [RemoveSubaddressing]
  {
  }

  lemma NoRulesByDomain(d: string)
    requires d !in ["gmail.com", "googlemail.com", "icloud.com", "me.com", "mac.com"]
    requires d !in ["outlook.com", "hotmail.com", "live.com", "msn.com", "proton.me", "protonmail.com", "pm.me",
                    "fastmail.com", "fastmail.fm", "zoho.com", "zohomail.com"]
    ensures DomainRules(d) == []
  {
  }

  lemma TwoRules(local: string)
    ensures RewriteAll([DotsDontMatter, RemoveSubaddressing], local) == RemoveDots(Before(local, '+'))
    ensures RewriteAll([RemoveSubaddressing], local) == Before(local, '+')
    ensures RewriteAll([], local) == local
  {
    var rules := [DotsDontMatter, RemoveSubaddressing];
    assert rules[..1] == [DotsDontMatter] && rules[..1][..0] == [] && [RemoveSubaddressing][..0] == [];
    assert RewriteAll(rules[..1], local) == RemoveDots(local);
    RulesCommute(local);
  }

  /** What cleaning does, domain by domain; a domain that no table lists only gets its letters lowered. */
  lemma CleanByDomain(email: string)
    ensures var l, d := Local(email), Domain(email);
      && (d == "" ==> Clean(email) == Lower(email))
      && (d in ["gmail.com", "googlemail.com"] ==> Clean(email) == RemoveDots(Before(l, '+')) + "@" + "gmail.com")
      && (d in ["icloud.com", "me.com", "mac.com"] ==> Clean(email) == RemoveDots(Before(l, '+')) + "@" + d)
      && (d in ["outlook.com", "hotmail.com", "live.com", "msn.com"] ==> Clean(email) == Before(l, '+') + "@" + d)
      && (d in ["proton.me", "protonmail.com", "pm.me"] ==> Clean(email) == Before(l, '+') + "@" + d)
      && (d in ["fastmail.com", "fastmail.fm", "zoho.com", "zohomail.com"] ==> Clean(email) == Before(l, '+') + "@" + d)
  {
    var l, d := Local(email), Domain(email);
    RulesByDomain("gmail.com");
    RulesByDomain(d);
    TwoRules(l);
    hide DomainRules, RewriteAll, RemoveDots, Before, After, Local, Domain;
  }

  /** `yahoo.com`, say, is no different from a domain that nobody listed. */
  lemma CleanUnlisted(email: string)
    requires Domain(email) != "" && !Inherited(Domain(email))
    requires Domain(email) !in ["gmail.com", "googlemail.com", "icloud.com", "me.com", "mac.com"]
    requires Domain(email) !in ["outlook.com", "hotmail.com", "live.com", "msn.com", "proton.me", "protonmail.com", "pm.me",
                                "fastmail.com", "fastmail.fm", "zoho.com", "zohomail.com"]
    ensures Clean(email) == Local(email) + "@" + Domain(email)
  {
    NoRulesByDomain(Domain(email));
    TwoRules(Local(email));
    hide DomainRules, RewriteAll, Before, After, Local, Domain;
  }

  /** The domains whose treatment of local parts is recorded, `yahoo`'s among them. */
  lemma KnownDomains(email: string)
    ensures IsProviderCanonicalized(email) <==>
      Domain(email) in [
        "gmail.com", "googlemail.com", "icloud.com", "me.com", "mac.com", "outlook.com", "hotmail.com", "live.com", "msn.com",
        "proton.me", "protonmail.com", "pm.me", "fastmail.com", "fastmail.fm", "zoho.com", "zohomail.com",
        "yahoo.com", "yahoo.co.uk", "yahoo.ca", "yahoo.com.au"]
  {
    DistinctIsKnown(Domain(email));
    hide Distinct, Domain;
  }

  lemma DistinctIsKnown(d: string)
    ensures ProviderOf(Distinct(d)).Some? <==> ProviderOf(d).Some?
  {
  }

  /** A text is what comes before the first `c`, that `c`, and what comes after. */
  lemma BeforeAfter(s: string, c: char)
    ensures Free(Before(s, c), c)
    ensures Free(s, c) ==> Before(s, c) == s && After(s, c) == ""
    ensures !Free(s, c) ==> s == Before(s, c) + [c] + After(s, c)
  {
  }

  /** The parts of an address, in lower case; what follows a second `@` is dropped. */
  lemma AddressParts(local: string, domain: string, rest: string)
    requires Free(local, '@') && Free(domain, '@')
    ensures Local(local) == Lower(local) && Domain(local) == ""
    ensures Local(local + "@" + domain) == Lower(local) && Domain(local + "@" + domain) == Lower(domain)
    ensures Domain(local + "@" + domain + "@" + rest) == Lower(domain) && Local(local + "@" + domain + "@" + rest) == Lower(local)
  {
    LowerFree(local, '@');
    LowerFree(domain, '@');
    LowerAt2(local, domain);
    LowerAt2(local + "@" + domain, rest);
    hide Lower;
    var l, d, r := Lower(local), Lower(domain), Lower(rest);
    BeforeFree(l, '@');
    BeforeFree(d, '@');
    FreeHasNoRest(l, '@');
    CutAt(l, d);
    CutAt(l, d + "@" + r);
    CutAt(d, r);
    assert l + "@" + d + "@" + r == l + "@" + (d + "@" + r);
  }

  lemma LowerFree(s: string, c: char)
    requires Free(s, c) && c == '@'
    ensures Free(Lower(s), c)
  {
  }

  lemma LowerAt2(s: string, t: string)
    ensures Lower(s + "@" + t) == Lower(s) + "@" + Lower(t)
  {
  }

  lemma FreeHasNoRest(s: string, c: char)
    requires Free(s, c)
    ensures Before(s, c) == s && After(s, c) == "" && Before("", c) == ""
  {
  }

  lemma CutAt(l: string, rest: string)
    requires Free(l, '@')
    ensures Before(l + "@" + rest, '@') == l && After(l + "@" + rest, '@') == rest
  {
    var s := l + "@" + rest;
    assert s == l + ("@" + rest);
    IndexOfAppend(l, "@" + rest, '@');
    assert IndexOf(l, '@') == |l| && IndexOf("@" + rest, '@') == 0;
  }

  // ----- the rules commute -----

  lemma BeforeCons(c: char, s: string, d: char)
    ensures Before([c] + s, d) == if c == d then "" else [c] + Before(s, d)
  {
    IndexOfAppend([c], s, d);
    assert ([c] + s)[..1 + IndexOf(s, d)] == [c] + s[..IndexOf(s, d)];
  }

  lemma RemoveDotsCons(c: char, s: string)
    ensures RemoveDots([c] + s) == (if c == '.' then "" else [c]) + RemoveDots(s)
  {
    assert ([c] + s)[1..] == s;
  }

  lemma {:induction false} RulesCommute(s: string)
    ensures RemoveDots(Before(s, '+')) == Before(RemoveDots(s), '+')
  {
    if s != "" {
      var c, r := s[0], s[1..];
      assert s == [c] + r;
      RulesCommute(r);
      BeforeCons(c, r, '+');
      BeforeCons(c, RemoveDots(r), '+');
      RemoveDotsCons(c, r);
      RemoveDotsCons(c, Before(r, '+'));
      assert "" + RemoveDots(r) == RemoveDots(r);
    }
  }

  lemma BeforeFree(s: string, c: char)
    requires Free(s, c)
    ensures Before(s, c) == s
  {
  }

  lemma {:induction false} RemoveDotsFree(s: string, c: char)
    ensures Free(RemoveDots(s), '.')
    ensures Free(s, c) ==> Free(RemoveDots(s), c)
  {
    if s != "" {
      RemoveDotsFree(s[1..], c);
    }
  }

  lemma {:induction false} FreeOfDots(s: string)
    requires Free(s, '.')
    ensures RemoveDots(s) == s
  {
    if s != "" {
      FreeOfDots(s[1..]);
    }
  }

  lemma {:induction false} LowerRemoveDots(s: string)
    requires Lower(s) == s
    ensures Lower(RemoveDots(s)) == RemoveDots(s)
  {
    if s != "" {
      assert LowerChar(s[0]) == s[0];
      assert Lower(s[1..]) == Lower(s)[1..];
      LowerRemoveDots(s[1..]);
      var d := RemoveDots(s[1..]);
      assert Lower([s[0]] + d) == [LowerChar(s[0])] + Lower(d);
    }
  }

  /** Each rule undoes nothing of the other, and is spent after one use. */
  lemma RewriteLaws(r: Rule, q: Rule, s: string)
    ensures Rewrite(r, Rewrite(r, s)) == Rewrite(r, s)
    ensures Rewrite(r, Rewrite(q, s)) == Rewrite(q, Rewrite(r, s))
  {
    RulesCommute(s);
    RemoveDotsFree(s, '+');
    FreeOfDots(RemoveDots(s));
    BeforeFree(Before(s, '+'), '+');
  }

  /** A rule used anywhere in a list might as well come last. */
  lemma {:induction false} UsedAgain(rules: seq<Rule>, r: Rule, s: string)
    requires r in rules
    ensures Rewrite(r, RewriteAll(rules, s)) == RewriteAll(rules, s)
  {
    hide Rewrite;
    var n := |rules| - 1;
    var before := RewriteAll(rules[..n], s);
    RewriteLaws(r, rules[n], before);
    if rules[n] != r {
      assert rules == rules[..n] + [rules[n]];
      UsedAgain(rules[..n], r, s);
    }
  }

  /** Using the rules of a list, in any order and any number of times, adds nothing to using the list. */
  lemma {:induction false} Absorbed(rules: seq<Rule>, more: seq<Rule>, s: string)
    requires forall r <- more :: r in rules
    ensures RewriteAll(more, RewriteAll(rules, s)) == RewriteAll(rules, s)
  {
    hide Rewrite;
    if more != [] {
      var n := |more| - 1;
      Absorbed(rules, more[..n], s);
      UsedAgain(rules, more[n], s);
    }
  }

  lemma {:induction false} RewriteAfterAll(rules: seq<Rule>, r: Rule, s: string)
    ensures RewriteAll(rules, Rewrite(r, s)) == Rewrite(r, RewriteAll(rules, s))
  {
    hide Rewrite;
    if rules != [] {
      var n := |rules| - 1;
      RewriteAfterAll(rules[..n], r, s);
      RewriteLaws(rules[n], r, RewriteAll(rules[..n], s));
    }
  }

  lemma {:induction false} AllCommute(rules: seq<Rule>, more: seq<Rule>, s: string)
    ensures RewriteAll(rules, RewriteAll(more, s)) == RewriteAll(more, RewriteAll(rules, s))
  {
    hide Rewrite;
    if more != [] {
      var n := |more| - 1;
      AllCommute(rules, more[..n], s);
      RewriteAfterAll(rules, more[n], RewriteAll(more[..n], s));
    }
  }

  /** Only which rules a provider lists matters, not their order or how often. */
  lemma RulesAreASet(rules: seq<Rule>, others: seq<Rule>, s: string)
    requires forall r :: r in rules <==> r in others
    ensures RewriteAll(rules, s) == RewriteAll(others, s)
  {
    Absorbed(rules, others, s);
    Absorbed(others, rules, s);
    AllCommute(rules, others, s);
  }

  // ----- cleaning twice -----

  /** A local part after cleaning: lower case and without `@`. */
  predicate Plain(s: string) {
    Lower(s) == s && Free(s, '@')
  }

  lemma PlainRewrite(r: Rule, s: string)
    requires Plain(s)
    ensures Plain(Rewrite(r, s))
  {
    RemoveDotsFree(s, '@');
    LowerRemoveDots(s);
    assert Lower(Before(s, '+')) == Lower(s)[..IndexOf(s, '+')];
  }

  lemma {:induction false} PlainRewriteAll(rules: seq<Rule>, s: string)
    requires Plain(s)
    ensures Plain(RewriteAll(rules, s))
  {
    hide Rewrite, Plain;
    if rules != [] {
      PlainRewriteAll(rules[..|rules| - 1], s);
      PlainRewrite(rules[|rules| - 1], RewriteAll(rules[..|rules| - 1], s));
    }
  }

  lemma PartsArePlain(email: string)
    ensures Plain(Local(email)) && Plain(Domain(email))
  {
    var lower := Lower(email);
    LowerTwice(email);
    var tail := After(lower, '@');
    assert Lower(Before(lower, '@')) == Before(lower, '@');
    assert Lower(tail) == tail;
    assert Lower(Before(tail, '@')) == Before(tail, '@');
  }

  /** Both parts are read back from an address put together from plain parts. */
  lemma PartsOf(local: string, domain: string)
    requires Free(local, '@') && Free(domain, '@')
    ensures Before(local + "@" + domain, '@') == local
    ensures Before(After(local + "@" + domain, '@'), '@') == domain
  {
    var s := local + "@" + domain;
    assert s == local + ("@" + domain);
    IndexOfAppend(local, "@" + domain, '@');
    assert IndexOf("@" + domain, '@') == 0;
    assert After(s, '@') == domain;
    BeforeFree(domain, '@');
  }

  lemma LowerParts(local: string, domain: string)
    requires Lower(local) == local && Lower(domain) == domain
    ensures Lower(local + "@" + domain) == local + "@" + domain
  {
    assert Lower(local + "@" + domain) == Lower(local) + "@" + Lower(domain);
  }

  lemma GmailIsPlain()
    ensures Plain("gmail.com") && Distinct("gmail.com") == "gmail.com"
  {
    assert Lower("gmail.com") == "gmail.com";
  }

  lemma HoldsCapital(s: string, i: nat)
    requires i < |s| && s[i] == 'O'
    ensures Lower(s) != s
  {
    assert Lower(s)[i] == 'o';
  }

  lemma ConstructorText()
    ensures var found := Distinct("constructor"); Lower(found) != found && |found| > 14 && Free(found, '@')
  {
    HoldsCapital("function Object() { [native code] }", 9);
  }

  lemma PrototypeText()
    ensures var found := Distinct("__proto__"); Lower(found) != found && |found| > 14 && Free(found, '@')
  {
    HoldsCapital("[object Object]", 8);
  }

  lemma DistinctPlain(domain: string)
    requires Plain(domain)
    ensures !Inherited(domain) ==> Plain(Distinct(domain)) && Distinct(Distinct(domain)) == Distinct(domain)
    ensures Inherited(domain) ==> Lower(Distinct(domain)) != Distinct(domain) && |Distinct(domain)| > 14
    ensures Free(Distinct(domain), '@') && (domain != "" ==> Distinct(domain) != "")
  {
    GmailIsPlain();
    ConstructorText();
    PrototypeText();
    hide Plain, Lower;
    assert !Inherited(domain) ==> Distinct(domain) == domain || (domain == "googlemail.com" && Distinct(domain) == "gmail.com");
    PlainIsFree(domain);
    PlainIsFree("gmail.com");
  }

  lemma PlainIsFree(s: string)
    ensures Plain(s) ==> Free(s, '@')
  {
  }

  /** The parts of a clean address, for every domain that a record does not inherit. */
  lemma CleanParts(email: string)
    requires Domain(email) != "" && !Inherited(Domain(email))
    ensures Local(Clean(email)) == RewriteAll(DomainRules(Distinct(Domain(email))), Local(email))
    ensures Domain(Clean(email)) == Distinct(Domain(email))
    ensures Lower(Clean(email)) == Clean(email)
  {
    hide DomainRules, Distinct, Inherited, Before, After;
    var domain := Distinct(Domain(email));
    var local := RewriteAll(DomainRules(domain), Local(email));
    PartsArePlain(email);
    DistinctPlain(Domain(email));
    PlainRewriteAll(DomainRules(domain), Local(email));
    LowerParts(local, domain);
    PartsOf(local, domain);
  }

  /** Cleaning a clean address changes nothing, but for the two domains that the table's lookup mistakes. */
  lemma CleanTwice(email: string)
    ensures Clean(Clean(email)) == Clean(email) <==> !Inherited(Domain(email))
  {
    hide DomainRules, Distinct, Before, After, Inherited;
    if Domain(email) == "" {
      LowerTwice(email);
      NotInherited(email);
    } else if !Inherited(Domain(email)) {
      PartsArePlain(email);
      DistinctPlain(Domain(email));
      CleanParts(email);
      var rules := DomainRules(Distinct(Domain(email)));
      Absorbed(rules, rules, Local(email));
    } else {
      InheritedIsNotFixed(email);
    }
  }

  lemma NotInherited(email: string)
    ensures Inherited(Domain(email)) ==> Domain(email) != ""
  {
  }

  lemma DomainsKeepApart(local: string, domain: string, other: string, found: string)
    requires domain != found && |domain| == |found|
    ensures local + "@" + domain != other + "@" + found
  {
    var s, t := local + "@" + domain, other + "@" + found;
    assert s[|s| - |domain|..] == domain && t[|t| - |found|..] == found;
  }

  /** The object's text read as a domain again: in lower case, and in no table. */
  lemma ReadInherited(local: string, domain: string)
    requires Plain(local) && Plain(domain) && Inherited(domain)
    ensures var found := Distinct(domain); var address := local + "@" + found;
      && Local(address) == local && Domain(address) == Lower(found) != found
      && !Inherited(Lower(found)) && Distinct(Lower(found)) == Lower(found) && Lower(address) != address
  {
    hide Before, After;
    DistinctPlain(domain);
    var found := Distinct(domain);
    assert Lower(local + "@" + found) == Lower(local) + "@" + Lower(found);
    PartsOf(local, Lower(found));
    DomainsKeepApart(local, found, local, Lower(found));
  }

  /** A second cleaning lowers the `O` of the object's text. */
  lemma InheritedIsNotFixed(email: string)
    requires Inherited(Domain(email))
    ensures Clean(Clean(email)) != Clean(email)
  {
    hide DomainRules, Before, After, Distinct, Inherited;
    NotInherited(email);
    var rules := DomainRules(Distinct(Domain(email)));
    PartsArePlain(email);
    PlainRewriteAll(rules, Local(email));
    ReadInherited(RewriteAll(rules, Local(email)), Domain(email));
    CleanParts(Clean(email));
  }

  // ----- what cleaning identifies -----

  /** Two addresses clean alike exactly when their domains mean the same and the provider's rules make their local parts equal. */
  lemma SameInboxIff(e: string, f: string)
    requires Domain(e) != "" && Domain(f) != ""
    ensures Clean(e) == Clean(f) <==>
      var d := Distinct(Domain(e));
      d == Distinct(Domain(f)) && RewriteAll(DomainRules(d), Local(e)) == RewriteAll(DomainRules(d), Local(f))
  {
    hide DomainRules, Before, After, Distinct;
    CleanReadsBack(e);
    CleanReadsBack(f);
  }

  /** Without lowering it first, a clean address splits into what it was put together from. */
  lemma CleanReadsBack(email: string)
    requires Domain(email) != ""
    ensures var d := Distinct(Domain(email));
      && Before(Clean(email), '@') == RewriteAll(DomainRules(d), Local(email))
      && Before(After(Clean(email), '@'), '@') == d != ""
      && Plain(RewriteAll(DomainRules(d), Local(email)))
  {
    hide DomainRules, Before, After, Distinct;
    var d := Distinct(Domain(email));
    PartsArePlain(email);
    DistinctPlain(Domain(email));
    PlainRewriteAll(DomainRules(d), Local(email));
    PartsOf(RewriteAll(DomainRules(d), Local(email)), d);
  }

  /** Gmail addresses, under either of its domains: case, dots and whatever follows a `+` do not count. */
  lemma GmailInbox(e: string, f: string)
    requires Domain(e) in ["gmail.com", "googlemail.com"] && Domain(f) in ["gmail.com", "googlemail.com"]
    ensures Clean(e) == Clean(f) <==> RemoveDots(Before(Local(e), '+')) == RemoveDots(Before(Local(f), '+'))
  {
    hide Before, After, RemoveDots;
    SameInboxIff(e, f);
    GmailRules(Local(e));
    GmailRules(Local(f));
  }

  lemma GmailRules(local: string)
    ensures RewriteAll(DomainRules("gmail.com"), local) == RemoveDots(Before(local, '+'))
  {
    RulesByDomain("gmail.com");
    TwoRules(local);
  }

  // ----- the abuse key -----

  lemma KeyOf(email: string)
    ensures Domain(email) == "" ==> AbuseKey(email) == Local(email)
    ensures Domain(email) != "" ==>
      var d := Distinct(Domain(email));
      AbuseKey(email) == Before(RewriteAll(DomainRules(d), Local(email)), '+') + "@" + d
  {
    hide DomainRules, Before, After, Distinct;
    if Domain(email) != "" {
      CleanReadsBack(email);
    }
  }

  /** The key depends on the clean address only, with the same two exceptions. */
  lemma KeyFactors(email: string)
    ensures AbuseKey(Clean(email)) == AbuseKey(email) <==> !Inherited(Domain(email))
  {
    hide DomainRules, Before, After, Distinct, Inherited, AbuseKey, Plain;
    CleanTwice(email);
    if !Inherited(Domain(email)) {
      SameCleanSameKey(Clean(email), email);
    } else {
      NotInherited(email);
      CleanReadsBack(email);
      PartsArePlain(email);
      var d := Distinct(Domain(email));
      ReadInherited(RewriteAll(DomainRules(d), Local(email)), Domain(email));
      KeyOf(email);
      KeyOf(Clean(email));
      DomainsKeepApart(
        Before(RewriteAll(DomainRules(d), Local(email)), '+'), d,
        Before(RewriteAll(DomainRules(Lower(d)), Local(Clean(email))), '+'), Lower(d));
    }
  }

  lemma SameCleanSameKey(e: string, f: string)
    requires Clean(e) == Clean(f)
    ensures AbuseKey(e) == AbuseKey(f)
  {
  }

  lemma KeyOfKey(email: string)
    requires Domain(email) != "" && !Inherited(Domain(email))
    ensures AbuseKey(AbuseKey(email)) == AbuseKey(email)
  {
    hide DomainRules, Before, After, Distinct, Inherited, AbuseKey, RewriteAll;
    var d := Distinct(Domain(email));
    var rules := DomainRules(d);
    var local := RewriteAll(rules, Local(email));
    var cut := Before(local, '+');
    KeyOf(email);
    CleanReadsBack(email);
    PartsArePlain(email);
    DistinctPlain(Domain(email));
    PlainRewrite(RemoveSubaddressing, local);
    LowerParts(cut, d);
    PartsOf(cut, d);
    KeyOf(cut + "@" + d);
    RewriteAfterAll(rules, RemoveSubaddressing, local);
    Absorbed(rules, rules, Local(email));
    RewriteLaws(RemoveSubaddressing, RemoveSubaddressing, local);
  }

  /** The key of a key is that key, with the same two exceptions. */
  lemma KeyTwice(email: string)
    ensures AbuseKey(AbuseKey(email)) == AbuseKey(email) <==> !Inherited(Domain(email))
  {
    hide DomainRules, Before, After, Distinct, Inherited, AbuseKey, RewriteAll, Rewrite;
    PartsArePlain(email);
    KeyOf(email);
    if Domain(email) == "" {
      NotInherited(email);
      BareKey(Local(email));
    } else if !Inherited(Domain(email)) {
      KeyOfKey(email);
    } else {
      CleanReadsBack(email);
      var d := Distinct(Domain(email));
      var cut := Rewrite(RemoveSubaddressing, RewriteAll(DomainRules(d), Local(email)));
      PlainRewrite(RemoveSubaddressing, RewriteAll(DomainRules(d), Local(email)));
      CutIsRewrite(RewriteAll(DomainRules(d), Local(email)));
      ReadInherited(cut, Domain(email));
      KeyOf(cut + "@" + d);
      DomainsKeepApart(cut, d, Before(RewriteAll(DomainRules(Lower(d)), cut), '+'), Lower(d));
    }
  }

  lemma CutIsRewrite(s: string)
    ensures Rewrite(RemoveSubaddressing, s) == Before(s, '+')
  {
  }

  lemma BareKey(s: string)
    requires Plain(s)
    ensures AbuseKey(s) == s
  {
    BeforeFree(s, '@');
    assert After(s, '@') == "";
  }

  /** Cleaning does not change whether a provider is known. */
  lemma CleaningKeepsProvider(email: string)
    ensures IsProviderCanonicalized(Clean(email)) == IsProviderCanonicalized(email)
  {
    hide DomainRules, Before, After, Inherited, ProviderOf;
    PartsArePlain(email);
    if Domain(email) == "" {
      LowerTwice(email);
    } else if !Inherited(Domain(email)) {
      CleanParts(email);
      DistinctPlain(Domain(email));
    } else {
      CleanReadsBack(email);
      ReadInherited(RewriteAll(DomainRules(Distinct(Domain(email))), Local(email)), Domain(email));
      InheritedHasNoProvider(Domain(email));
    }
  }

  lemma InheritedHasNoProvider(domain: string)
    requires Inherited(domain)
    ensures ProviderOf(Distinct(domain)).None? && ProviderOf(Lower(Distinct(domain))).None?
  {
    var found := Distinct(domain);
    assert |Lower(found)| == |found|;
  }
}
