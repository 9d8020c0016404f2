/** The host-local backstop: which verbs and which users this host permits. */
module Allowlist {
  import opened Wrappers

  datatype Denial = Verb(kind: string) | RunAs(runAs: string)

  datatype LocalAllowlist = LocalAllowlist(verbs: seq<string>, runAs: seq<string>) {
    function Permits(kind: string, user: string): (r: Result<(), Denial>)
      ensures r.Ok? <==> kind != "" && Lists(verbs, kind) && Lists(runAs, user)
      ensures r.Err? ==> r.error == if kind == "" || !Lists(verbs, kind) then Verb(kind) else RunAs(user)
    {
      if kind == "" || !("*" in verbs || kind in verbs) then Err(Verb(kind))
      else if !("*" in runAs || user in runAs) then Err(RunAs(user))
      else Ok(())
    }
  }

  lemma ListsIff(list: seq<string>, x: string)
    ensures Lists(list, x) <==> "*" in list || x in list
  {
  }

  /** A list grants what it names, or everything through the wildcard. */
  predicate Lists(list: seq<string>, x: string) {
    exists i | 0 <= i < |list| :: list[i] == "*" || list[i] == x
  }
}
