/** The operation-type filter: a whitelist or a blacklist of operation type
    names (`_op_list`), consulted on the operation's type-name tag. */
module OperationFilter {

  /** The filter part of the plugin's configuration: `_filter_content`,
      `_blacklist` and `_op_list`. */
  datatype FilterConfig = FilterConfig(filterContent: bool, blacklist: bool, opList: set<string>)

  /** The filtering visitor's decision: an operation whose type is listed is
      passed on only in whitelist mode, one that is not listed only in
      blacklist mode. */
  predicate Admits(opList: set<string>, blacklist: bool, typeName: string)
    ensures !blacklist ==> (Admits(opList, blacklist, typeName) <==> typeName in opList)
    ensures blacklist ==> (Admits(opList, blacklist, typeName) <==> typeName !in opList)
  {
    if typeName in opList then !blacklist else blacklist
  }

  /** Whether the dispatcher records an operation of this type at all: always
      when filtering is off, otherwise as the filtering visitor decides. */
  predicate ShouldRecord(cfg: FilterConfig, typeName: string)
    ensures !cfg.filterContent ==> ShouldRecord(cfg, typeName)
  {
    !cfg.filterContent || Admits(cfg.opList, cfg.blacklist, typeName)
  }

  /** A whitelist and a blacklist with the same list decide every type in
      opposite ways. */
  lemma WhitelistBlacklistComplementary(opList: set<string>, typeName: string)
    ensures Admits(opList, false, typeName) <==> !Admits(opList, true, typeName)
  {
  }

  /** With the whitelist `{a}` only type `a` is recorded; with the blacklist
      `{a}` every type but `a` is. */
  lemma SingletonLists(a: string, typeName: string)
    ensures ShouldRecord(FilterConfig(true, false, {a}), typeName) <==> typeName == a
    ensures ShouldRecord(FilterConfig(true, true, {a}), typeName) <==> typeName != a
  {
  }
}
