/** The configuration rules of plugin initialisation: how the white- and
    blacklist options become the operation filter, and how the pruning flag
    is set. Option declaration and the command-line parser are not modelled:
    an option is `None` when absent and `Some(values)` when given. */
module PluginConfig {
  import opened Wrappers
  import opened OperationFilter

  /** STEEM_NAMESPACE_PREFIX, put before every configured operation name. */
  const NamespacePrefix: string := "steem::protocol::"

  /** The separators of the option values: space, tab and comma. */
  predicate IsSeparator(c: char) {
    c == ' ' || c == '\t' || c == ','
  }

  /** The separator characters of `s`, in order. */
  function Separators(s: string): (r: string)
    ensures forall i :: 0 <= i < |r| ==> IsSeparator(r[i])
  {
    if |s| == 0 then []
    else (if IsSeparator(s[0]) then [s[0]] else []) + Separators(s[1..])
  }

  /** Splitting on any separator without merging adjacent ones: `n`
      separators give `n + 1` tokens, some of them possibly empty, none of
      them holding a separator. */
  function Split(s: string): (r: seq<string>)
    ensures |r| == |Separators(s)| + 1
    ensures forall i, j :: 0 <= i < |r| && 0 <= j < |r[i]| ==> !IsSeparator(r[i][j])
  {
    if |s| == 0 then [""]
    else
      var rest := Split(s[1..]);
      if IsSeparator(s[0]) then [""] + rest
      else [[s[0]] + rest[0]] + rest[1..]
  }

  /** The inverse of `Split`: the tokens put back together with the
      separators between them. */
  function Join(tokens: seq<string>, seps: string): string
    requires |tokens| == |seps| + 1
    decreases |seps|
  {
    if |seps| == 0 then tokens[0]
    else tokens[0] + [seps[0]] + Join(tokens[1..], seps[1..])
  }

  /** Putting a character in front of the first token puts it in front of
      the joined value. */
  lemma JoinPrependToFirst(tokens: seq<string>, seps: string, c: char)
    requires |tokens| == |seps| + 1
    ensures Join([[c] + tokens[0]] + tokens[1..], seps) == [c] + Join(tokens, seps)
  {
    var tokens' := [[c] + tokens[0]] + tokens[1..];
    assert tokens'[1..] == tokens[1..];
  }

  /** Splitting loses nothing: the tokens and the separators give back the
      option value. */
  lemma {:induction false} SplitJoinRoundTrip(s: string)
    ensures Join(Split(s), Separators(s)) == s
    decreases |s|
  {
    if |s| > 0 {
      var rest := Split(s[1..]);
      var seps := Separators(s[1..]);
      SplitJoinRoundTrip(s[1..]);
      assert Join(rest, seps) == s[1..];
      if IsSeparator(s[0]) {
        assert Separators(s) == [s[0]] + seps;
        assert Split(s) == [""] + rest;
        assert Join([""] + rest, [s[0]] + seps) == [s[0]] + Join(rest, seps);
      } else {
        assert Separators(s) == seps;
        assert Split(s) == [[s[0]] + rest[0]] + rest[1..];
        JoinPrependToFirst(rest, seps, s[0]);
      }
      assert s == [s[0]] + s[1..];
    }
  }

  /** The names one option value contributes to `_op_list`: every non-empty
      token, prefixed. */
  function ArgTokens(arg: string): set<string> {
    set t | t in Split(arg) && |t| > 0 :: NamespacePrefix + t
  }

  /** The names all values of one option contribute. */
  function PrefixedTokens(args: seq<string>): set<string>
    decreases |args|
  {
    if |args| == 0 then {}
    else PrefixedTokens(args[..|args| - 1]) + ArgTokens(args[|args| - 1])
  }

  /** `x` is the prefix followed by a non-empty token of some value. */
  ghost predicate IsPrefixedTokenOf(args: seq<string>, x: string) {
    exists i, t :: 0 <= i < |args| && t in Split(args[i]) && |t| > 0 && x == NamespacePrefix + t
  }

  /** A name is contributed exactly when some value of the option has it as
      a non-empty token. */
  lemma {:induction false} PrefixedTokensMembers(args: seq<string>, x: string)
    ensures x in PrefixedTokens(args) <==> IsPrefixedTokenOf(args, x)
    decreases |args|
  {
    if |args| > 0 {
      var init := args[..|args| - 1];
      PrefixedTokensMembers(init, x);
      if x in PrefixedTokens(init) {
        var i, t :| 0 <= i < |init| && t in Split(init[i]) && |t| > 0 && x == NamespacePrefix + t;
        assert args[i] == init[i];
      }
      if IsPrefixedTokenOf(args, x) {
        var i, t :| 0 <= i < |args| && t in Split(args[i]) && |t| > 0 && x == NamespacePrefix + t;
        if i < |args| - 1 {
          assert init[i] == args[i];
        }
      }
    }
  }

  /** Every contributed name is the prefix followed by a non-empty token
      free of separators. */
  lemma PrefixedTokensWellFormed(args: seq<string>, x: string)
    requires x in PrefixedTokens(args)
    ensures exists t :: x == NamespacePrefix + t && |t| > 0 && forall j :: 0 <= j < |t| ==> !IsSeparator(t[j])
  {
    PrefixedTokensMembers(args, x);
    var i, t :| 0 <= i < |args| && t in Split(args[i]) && |t| > 0 && x == NamespacePrefix + t;
    var k :| 0 <= k < |Split(args[i])| && Split(args[i])[k] == t;
    assert forall j :: 0 <= j < |t| ==> !IsSeparator(Split(args[i])[k][j]);
  }

  /** The inner loop of `plugin_initialize` over one split value: insert
      each of its non-empty tokens, prefixed. */
  method InsertTokens(ops: seq<string>, opList: set<string>) returns (r: set<string>)
    ensures r == opList + (set t | t in ops && |t| > 0 :: NamespacePrefix + t)
  {
    r := opList;
    for j := 0 to |ops|
      invariant r == opList + (set t | t in ops[..j] && |t| > 0 :: NamespacePrefix + t)
    {
      if |ops[j]| > 0 {
        r := r + {NamespacePrefix + ops[j]};
      }
      assert ops[..j + 1] == ops[..j] + [ops[j]];
    }
    assert ops[..|ops|] == ops;
  }

  /** The loops of `plugin_initialize` over an option's values: split
      every value and insert each non-empty token, prefixed, into the
      operation list. */
  method CollectOps(args: seq<string>, opList: set<string>) returns (r: set<string>)
    ensures r == opList + PrefixedTokens(args)
  {
    r := opList;
    for i := 0 to |args|
      invariant r == opList + PrefixedTokens(args[..i])
    {
      var ops := Split(args[i]);
      r := InsertTokens(ops, r);
      assert args[..i + 1][..i] == args[..i];
    }
    assert args[..|args|] == args;
  }

  /** The options plugin initialisation reads. */
  datatype ProgramOptions = ProgramOptions(
    whitelistOps: Option<seq<string>>,          // account-history-whitelist-ops
    legacyWhitelistOps: Option<seq<string>>,    // history-whitelist-ops
    blacklistOps: Option<seq<string>>,          // account-history-blacklist-ops
    legacyBlacklistOps: Option<seq<string>>,    // history-blacklist-ops
    disablePruning: Option<bool>)               // history-disable-pruning

  function OptionTokens(o: Option<seq<string>>): set<string> {
    if o.Some? then PrefixedTokens(o.value) else {}
  }

  predicate HasWhitelist(o: ProgramOptions) {
    o.whitelistOps.Some? || o.legacyWhitelistOps.Some?
  }

  predicate HasBlacklist(o: ProgramOptions) {
    o.blacklistOps.Some? || o.legacyBlacklistOps.Some?
  }

  /** The filter the options configure: a whitelist when any whitelist option
      is given, otherwise a blacklist when any blacklist option is given,
      otherwise no filtering. Both spellings of an option add to one list. */
  function ConfiguredFilter(o: ProgramOptions): FilterConfig {
    if HasWhitelist(o) then
      FilterConfig(true, false, OptionTokens(o.whitelistOps) + OptionTokens(o.legacyWhitelistOps))
    else if HasBlacklist(o) then
      FilterConfig(true, true, OptionTokens(o.blacklistOps) + OptionTokens(o.legacyBlacklistOps))
    else
      FilterConfig(false, false, {})
  }

  /** `_prune`: the negation of history-disable-pruning, true by default. */
  function ConfiguredPrune(o: ProgramOptions): (prune: bool)
    ensures o.disablePruning.None? ==> prune
    ensures o.disablePruning.Some? ==> prune == !o.disablePruning.value
  {
    if o.disablePruning.Some? then !o.disablePruning.value else true
  }

  /** A whitelist option wins over the blacklist options: the whitelist
      decides alone, whatever blacklist is also given. */
  lemma WhitelistTakesPrecedence(o: ProgramOptions, typeName: string)
    requires HasWhitelist(o)
    ensures ShouldRecord(ConfiguredFilter(o), typeName) <==>
            typeName in OptionTokens(o.whitelistOps) + OptionTokens(o.legacyWhitelistOps)
  {
  }

  /** A non-empty token of a whitelist value admits exactly the operation
      whose type name is that token behind the namespace prefix, whichever
      spelling of the option (`legacy` for `history-whitelist-ops`) gave it. */
  lemma WhitelistedTokenRecorded(o: ProgramOptions, legacy: bool, i: nat, t: string)
    requires var v := if legacy then o.legacyWhitelistOps else o.whitelistOps;
             v.Some? && i < |v.value| && t in Split(v.value[i]) && |t| > 0
    ensures ShouldRecord(ConfiguredFilter(o), NamespacePrefix + t)
  {
    var v := if legacy then o.legacyWhitelistOps else o.whitelistOps;
    PrefixedTokensMembers(v.value, NamespacePrefix + t);
  }

  /** A non-empty token of a blacklist value, with no whitelist option given,
      keeps that operation type out, whichever spelling of the option
      (`legacy` for `history-blacklist-ops`) gave it. */
  lemma BlacklistedTokenIgnored(o: ProgramOptions, legacy: bool, i: nat, t: string)
    requires !HasWhitelist(o)
    requires var v := if legacy then o.legacyBlacklistOps else o.blacklistOps;
             v.Some? && i < |v.value| && t in Split(v.value[i]) && |t| > 0
    ensures !ShouldRecord(ConfiguredFilter(o), NamespacePrefix + t)
  {
    var v := if legacy then o.legacyBlacklistOps else o.blacklistOps;
    PrefixedTokensMembers(v.value, NamespacePrefix + t);
  }
}
