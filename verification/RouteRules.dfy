/** Route rules and policies, and the normalisation they go through on every save, load and read. */
module RouteRules {
  import opened Bytes

  // ----- Text -----

  /** The characters Rust's `trim` removes: the Unicode property White_Space. */
  predicate IsSpace(c: char) {
    || '\U{9}' <= c <= '\U{D}' || c == ' ' || c == '\U{85}' || c == '\U{A0}' || c == '\U{1680}'
    || '\U{2000}' <= c <= '\U{200A}' || c == '\U{2028}' || c == '\U{2029}' || c == '\U{202F}'
    || c == '\U{205F}' || c == '\U{3000}'
  }

  function Last(s: string): char
    requires s != ""
  {
    s[|s| - 1]
  }

  function TrimStart(s: string): (r: string)
    ensures |r| <= |s| && (r == "" || !IsSpace(r[0]))
    ensures s == "" || !IsSpace(s[0]) ==> r == s
  {
    if s != "" && IsSpace(s[0]) then TrimStart(s[1..]) else s
  }

  function TrimEnd(s: string): (r: string)
    ensures r <= s && (r == "" || !IsSpace(Last(r)))
    ensures s == "" || !IsSpace(Last(s)) ==> r == s
  {
    if s != "" && IsSpace(Last(s)) then TrimEnd(s[..|s| - 1]) else s
  }

  function Trim(s: string): string {
    TrimEnd(TrimStart(s))
  }

  function TrimEndSlashes(s: string): (r: string)
    ensures r <= s && (r == "" || Last(r) != '/')
    ensures s == "" || Last(s) != '/' ==> r == s
  {
    if s != "" && Last(s) == '/' then TrimEndSlashes(s[..|s| - 1]) else s
  }

  function LowerChar(c: char): char {
    if 'A' <= c <= 'Z' then c - 'A' + 'a' else c
  }

  function Lower(s: string): (r: string)
    ensures |r| == |s| && forall i :: 0 <= i < |s| ==> r[i] == LowerChar(s[i])
  {
    seq(|s|, i requires 0 <= i < |s| => LowerChar(s[i]))
  }

  lemma LowerFacts(s: string)
    ensures Lower(Lower(s)) == Lower(s)
    ensures s != "" ==> (IsSpace(Last(Lower(s))) <==> IsSpace(Last(s))) && (IsSpace(Lower(s)[0]) <==> IsSpace(s[0]))
    ensures s != "" ==> (Last(Lower(s)) == '/' <==> Last(s) == '/') && (Lower(s)[0] == '/' <==> s[0] == '/')
  {
  }

  // ----- Rules -----

  function NormalizeRule(rule: string): Option<string> {
    var trimmed := Trim(rule);
    if trimmed == "" then None
    else if trimmed == "*" then Some("*")
    else
      var normalized := Lower(TrimEndSlashes(WithSlash(trimmed)));
      Some(if normalized == "" then "/" else normalized)
  }

  function WithSlash(s: string): string {
    if s != "" && s[0] == '/' then s else "/" + s
  }

  /** The form every normalised rule has. */
  predicate RuleShape(n: string) {
    n == "*" || n == "/" || (n != "" && n[0] == '/' && Last(n) != '/' && Lower(n) == n)
  }

  lemma NormalizedHasShape(rule: string)
    requires NormalizeRule(rule).Some?
    ensures RuleShape(NormalizeRule(rule).value)
  {
    var trimmed := Trim(rule);
    if trimmed != "*" {
      var s := TrimEndSlashes(WithSlash(trimmed));
      LowerFacts(s);
      if s != "" {
        assert s[0] == WithSlash(trimmed)[0];
      }
    }
  }

  /**
   Normalising a rule a second time changes it exactly when it ends in white space, which the removal
   of trailing slashes can bring about.
   */
  lemma RenormalizeRule(n: string)
    requires RuleShape(n)
    ensures NormalizeRule(n) == Some(n) <==> !IsSpace(Last(n))
    ensures NormalizeRule(n).Some?
  {
    assert n[0] == '*' || n[0] == '/';
    assert TrimStart(n) == n;
    var trimmed := Trim(n);
    TrimEndKeepsFirst(n);
    if !IsSpace(Last(n)) {
      assert trimmed == n;
      if n != "*" && n != "/" {
        assert TrimEndSlashes(n) == n;
      }
    } else {
      TrimEndShrinks(n);
      assert trimmed[0] == '/';
      assert |TrimEndSlashes(WithSlash(trimmed))| <= |trimmed| < |n|;
    }
  }

  lemma {:induction false} TrimEndKeepsFirst(s: string)
    requires s != "" && !IsSpace(s[0])
    ensures TrimEnd(s) != "" && TrimEnd(s)[0] == s[0]
  {
    if |s| > 1 && IsSpace(Last(s)) {
      TrimEndKeepsFirst(s[..|s| - 1]);
    }
  }

  lemma TrimEndShrinks(s: string)
    requires s != "" && IsSpace(Last(s))
    ensures |TrimEnd(s)| < |s|
  {
  }

  predicate AllSpace(s: string) {
    forall i :: 0 <= i < |s| ==> IsSpace(s[i])
  }

  predicate AllSlashes(s: string) {
    forall i :: 0 <= i < |s| ==> s[i] == '/'
  }

  /** `t` is `s` with the ASCII capitals made small. */
  predicate IsLowerOf(t: string, s: string) {
    |t| == |s| && forall i :: 0 <= i < |s| ==>
      if 0x41 <= s[i] as int <= 0x5A then t[i] as int == s[i] as int + 32 else t[i] == s[i]
  }

  lemma {:induction false} TrimStartSplits(s: string) returns (lead: string)
    ensures AllSpace(lead) && s == lead + TrimStart(s)
  {
    if s != "" && IsSpace(s[0]) {
      var rest := TrimStartSplits(s[1..]);
      lead := [s[0]] + rest;
    } else {
      lead := "";
    }
  }

  lemma {:induction false} TrimEndSplits(s: string) returns (trail: string)
    ensures AllSpace(trail) && s == TrimEnd(s) + trail
  {
    if s != "" && IsSpace(Last(s)) {
      var rest := TrimEndSplits(s[..|s| - 1]);
      trail := rest + [Last(s)];
    } else {
      trail := "";
    }
  }

  lemma {:induction false} SlashesSplit(s: string) returns (slashes: string)
    ensures AllSlashes(slashes) && s == TrimEndSlashes(s) + slashes
  {
    if s != "" && Last(s) == '/' {
      var rest := SlashesSplit(s[..|s| - 1]);
      slashes := rest + [Last(s)];
    } else {
      slashes := "";
    }
  }

  /**
   What a rule is normalised to: of the text between its outer white space, `*` stays; anything else gets a
   leading slash if it has none, small letters, and no trailing slashes but one that is all there is.
   */
  lemma {:induction false} NormalizeRuleIs(rule: string)
    returns (lead: string, core: string, trail: string, slashes: string)
    ensures rule == lead + core + trail && AllSpace(lead) && AllSpace(trail)
    ensures core != "" ==> !IsSpace(core[0]) && !IsSpace(core[|core| - 1])
    ensures NormalizeRule(rule) == None <==> core == ""
    ensures core == "*" ==> NormalizeRule(rule) == Some("*")
    ensures core != "" && core != "*" ==>
      var n := NormalizeRule(rule).value;
      && AllSlashes(slashes) && n != "" && (n == "/" || n[|n| - 1] != '/')
      && IsLowerOf(n + slashes, if core[0] == '/' then core else "/" + core)
  {
    lead, core, trail := TrimSplits(rule);
    slashes := "";
    if core != "" && core != "*" {
      slashes := SlashesSplit(WithSlash(core));
      slashes := SlashesBehind(WithSlash(core), slashes);
    }
  }

  lemma {:induction false} TrimSplits(rule: string) returns (lead: string, core: string, trail: string)
    ensures core == Trim(rule) && rule == lead + core + trail && AllSpace(lead) && AllSpace(trail)
    ensures core != "" ==> !IsSpace(core[0]) && !IsSpace(core[|core| - 1])
  {
    lead := TrimStartSplits(rule);
    trail := TrimEndSplits(TrimStart(rule));
    core := Trim(rule);
    if core != "" {
      TrimmedStart(rule);
    }
  }

  lemma TrimmedStart(rule: string)
    requires Trim(rule) != ""
    ensures !IsSpace(Trim(rule)[0])
  {
    TrimEndKeepsFirst(TrimStart(rule));
  }

  lemma SlashesBehind(whole: string, slashes: string) returns (behind: string)
    requires whole != "" && AllSlashes(slashes) && whole == TrimEndSlashes(whole) + slashes
    ensures var bare := Lower(TrimEndSlashes(whole)); var n := if bare == "" then "/" else bare;
      && AllSlashes(behind) && IsLowerOf(n + behind, whole) && (n == "/" || n[|n| - 1] != '/')
  {
    var bare := TrimEndSlashes(whole);
    behind := if bare == "" then slashes[1..] else slashes;
    LowerFacts(bare);
  }

  // ----- Rule lists -----

  /** The normalised rules in order, each once; `seen` holds those already taken. */
  function NormalizeFrom(rules: seq<string>, seen: set<string>): seq<string> {
    if rules == [] then []
    else
      var n := NormalizeRule(rules[0]);
      if n.None? || n.value in seen then NormalizeFrom(rules[1..], seen)
      else [n.value] + NormalizeFrom(rules[1..], seen + {n.value})
  }

  function NormalizeRules(rules: seq<string>): seq<string> {
    NormalizeFrom(rules, {})
  }

  /** One rule more: its normal form goes to the end unless it is there already. */
  lemma {:induction false} NormalizeAppend(rules: seq<string>, rule: string, seen: set<string>)
    ensures var n := NormalizeRule(rule);
      NormalizeFrom(rules + [rule], seen)
      == NormalizeFrom(rules, seen)
         + if n == None || n.value in seen || n.value in NormalizeFrom(rules, seen) then [] else [n.value]
    decreases |rules|
  {
    if rules == [] {
      assert [rule][1..] == [];
    } else {
      var first := NormalizeRule(rules[0]);
      assert (rules + [rule])[1..] == rules[1..] + [rule];
      NormalizeAppend(rules[1..], rule, if first == None || first.value in seen then seen else seen + {first.value});
    }
  }

  predicate Shaped(ns: seq<string>) {
    forall i :: 0 <= i < |ns| ==> RuleShape(ns[i])
  }

  /** No rule twice, and none of `seen`. */
  predicate Fresh(ns: seq<string>, seen: set<string>) {
    if ns == [] then true else ns[0] !in seen && Fresh(ns[1..], seen + {ns[0]})
  }

  lemma {:induction false} NormalizedAreShaped(rules: seq<string>, seen: set<string>)
    ensures Shaped(NormalizeFrom(rules, seen)) && Fresh(NormalizeFrom(rules, seen), seen)
    decreases |rules|
  {
    if rules != [] {
      var n := NormalizeRule(rules[0]);
      if n.None? || n.value in seen {
        NormalizedAreShaped(rules[1..], seen);
      } else {
        NormalizedHasShape(rules[0]);
        var rest := NormalizeFrom(rules[1..], seen + {n.value});
        NormalizedAreShaped(rules[1..], seen + {n.value});
        assert ([n.value] + rest)[1..] == rest;
      }
    }
  }

  /** No rule ends in white space. */
  predicate Stable(rules: seq<string>) {
    forall i :: 0 <= i < |rules| ==> rules[i] != "" && !IsSpace(Last(rules[i]))
  }

  lemma {:induction false} RenormalizeFrom(ns: seq<string>, seen: set<string>)
    requires Shaped(ns) && Fresh(ns, seen) && Stable(ns)
    ensures NormalizeFrom(ns, seen) == ns
    decreases |ns|
  {
    if ns != [] {
      RenormalizeRule(ns[0]);
      RenormalizeFrom(ns[1..], seen + {ns[0]});
    }
  }

  function Size(rules: seq<string>): nat {
    if rules == [] then 0 else 1 + |rules[0]| + Size(rules[1..])
  }

  lemma RenormalizedRuleSize(n: string)
    requires RuleShape(n)
    ensures NormalizeRule(n).Some? && |NormalizeRule(n).value| <= |n|
    ensures |NormalizeRule(n).value| == |n| ==> NormalizeRule(n).value == n
  {
    RenormalizeRule(n);
    assert TrimStart(n) == n;
    TrimEndKeepsFirst(n);
    if IsSpace(Last(n)) {
      TrimEndShrinks(n);
      assert |TrimEndSlashes(WithSlash(Trim(n)))| <= |Trim(n)| < |n|;
    }
  }

  /** Normalising shaped rules again only ever makes them smaller, unless it leaves them alone. */
  lemma {:induction false} RenormalizeShrinks(ns: seq<string>, seen: set<string>)
    requires Shaped(ns)
    ensures Size(NormalizeFrom(ns, seen)) <= Size(ns)
    ensures Size(NormalizeFrom(ns, seen)) == Size(ns) ==> NormalizeFrom(ns, seen) == ns
    decreases |ns|
  {
    if ns != [] {
      RenormalizedRuleSize(ns[0]);
      var n := NormalizeRule(ns[0]).value;
      if n in seen {
        RenormalizeShrinks(ns[1..], seen);
      } else {
        var rest := NormalizeFrom(ns[1..], seen + {n});
        RenormalizeShrinks(ns[1..], seen + {n});
        assert ([n] + rest)[1..] == rest;
      }
    }
  }

  lemma {:induction false} UnchangedIsStable(ns: seq<string>, seen: set<string>)
    requires Shaped(ns) && NormalizeFrom(ns, seen) == ns
    ensures Stable(ns)
    decreases |ns|
  {
    if ns != [] {
      RenormalizeRule(ns[0]);
      var n := NormalizeRule(ns[0]).value;
      if n in seen {
        RenormalizeShrinks(ns[1..], seen);
      } else {
        var rest := NormalizeFrom(ns[1..], seen + {n});
        assert ([n] + rest)[0] == ns[0] && ([n] + rest)[1..] == ns[1..];
        UnchangedIsStable(ns[1..], seen + {n});
      }
    }
  }

  /** A normalised rule list stays as it is under normalisation exactly when no rule ends in white space. */
  lemma NormalizeRulesIdempotentIff(rules: seq<string>)
    ensures NormalizeRules(NormalizeRules(rules)) == NormalizeRules(rules) <==> Stable(NormalizeRules(rules))
  {
    var ns := NormalizeRules(rules);
    NormalizedAreShaped(rules, {});
    if Stable(ns) {
      RenormalizeFrom(ns, {});
    }
    if NormalizeRules(ns) == ns {
      UnchangedIsStable(ns, {});
    }
  }

  /** For instance `/a /` becomes `/a ` and only then `/a`. */
  lemma NotIdempotentExample()
    ensures NormalizeRule("/a /") == Some("/a ") && NormalizeRule("/a ") == Some("/a")
  {
    assert TrimEndSlashes("/a /") == "/a " by {
      assert "/a /"[..3] == "/a ";
      assert TrimEndSlashes("/a ") == "/a ";
    }
    assert Trim("/a ") == "/a" by {
      assert "/a "[..2] == "/a";
      assert TrimEnd("/a") == "/a";
    }
    assert Lower("/a ") == "/a " && Lower("/a") == "/a";
  }

  // ----- Policies -----

  datatype Mode = AllowAll | AllowList | DenyList

  datatype RoutePolicy = RoutePolicy(mode: Mode, rules: seq<string>)

  const UNRESTRICTED := RoutePolicy(AllowAll, [])

  function Normalized(p: RoutePolicy): RoutePolicy {
    RoutePolicy(p.mode, if p.mode == AllowAll then [] else NormalizeRules(p.rules))
  }

  /** The policy is left alone by normalisation. */
  predicate Settled(p: RoutePolicy) {
    Normalized(p) == p
  }

  lemma NormalizedSettlesIff(p: RoutePolicy)
    ensures Settled(Normalized(p)) <==> Stable(Normalized(p).rules)
  {
    NormalizeRulesIdempotentIff(p.rules);
  }

  /** Normalised `k` times over. */
  function Passes(p: RoutePolicy, k: nat): RoutePolicy
    decreases k
  {
    if k == 0 then p else Passes(Normalized(p), k - 1)
  }

  /** The form every normalised policy has. */
  predicate ShapedPolicy(p: RoutePolicy) {
    Shaped(p.rules) && Fresh(p.rules, {}) && (p.mode == AllowAll ==> p.rules == [])
  }

  /** A policy of normal form is left alone exactly when no rule ends in white space. */
  lemma SettledIff(p: RoutePolicy)
    requires ShapedPolicy(p)
    ensures Settled(p) <==> Stable(p.rules)
  {
    if p.mode != AllowAll {
      if Stable(p.rules) {
        RenormalizeFrom(p.rules, {});
      }
      if NormalizeRules(p.rules) == p.rules {
        UnchangedIsStable(p.rules, {});
      }
    }
  }

  lemma NormalizedIsShaped(p: RoutePolicy)
    ensures ShapedPolicy(Normalized(p))
  {
    NormalizedAreShaped(p.rules, {});
  }

  lemma {:induction false} PassesShrink(p: RoutePolicy, k: nat)
    requires ShapedPolicy(p)
    ensures Size(Passes(p, k).rules) <= Size(p.rules)
    decreases k
  {
    if k > 0 {
      RenormalizeShrinks(p.rules, {});
      NormalizedIsShaped(p);
      PassesShrink(Normalized(p), k - 1);
    }
  }

  lemma UnsettledShrinks(p: RoutePolicy)
    requires ShapedPolicy(p) && !Settled(p)
    ensures Size(Normalized(p).rules) < Size(p.rules)
  {
    RenormalizeShrinks(p.rules, {});
  }

  lemma {:induction false} PassesAreShaped(p: RoutePolicy, k: nat)
    requires ShapedPolicy(p)
    ensures ShapedPolicy(Passes(p, k))
    decreases k
  {
    if k > 0 {
      NormalizedIsShaped(p);
      PassesAreShaped(Normalized(p), k - 1);
    }
  }

  lemma {:induction false} PassesAdd(p: RoutePolicy, j: nat, k: nat)
    ensures Passes(Passes(p, j), k) == Passes(p, j + k)
    decreases j
  {
    if j > 0 {
      var q := Normalized(p);
      PassesAdd(q, j - 1, k);
      assert Passes(p, j) == Passes(q, j - 1) && Passes(p, j + k) == Passes(q, j - 1 + k);
    }
  }

  lemma {:induction false} SettledPasses(p: RoutePolicy, k: nat)
    requires Settled(p)
    ensures Passes(p, k) == p
    decreases k
  {
    if k > 0 {
      SettledPasses(p, k - 1);
    }
  }

  lemma UnsettledNeverReturns(p: RoutePolicy, k: nat)
    requires ShapedPolicy(p) && !Settled(p) && k > 0
    ensures Passes(p, k) != p
  {
    PassesStrictlyShrink(p, Normalized(p), k);
  }

  lemma PassesStrictlyShrink(p: RoutePolicy, q: RoutePolicy, k: nat)
    requires ShapedPolicy(p) && !Settled(p) && k > 0 && q == Normalized(p)
    ensures Size(Passes(p, k).rules) < Size(p.rules)
  {
    UnsettledShrinks(p);
    NormalizedIsShaped(p);
    PassesShrink(q, k - 1);
  }

  /**
   However often it is normalised on its way, a policy of normal form comes back as sent exactly when no
   rule ends in white space.
   */
  lemma PassesReturnIff(p: RoutePolicy, k: nat)
    requires ShapedPolicy(p) && k > 0
    ensures Passes(p, k) == p <==> Stable(p.rules)
  {
    SettledIff(p);
    if Settled(p) {
      SettledPasses(p, k);
    } else {
      UnsettledNeverReturns(p, k);
    }
  }
}
