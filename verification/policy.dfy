/** The deny-by-default policy decision point. */
module Policy {
  import opened Wrappers
  import opened Uuid
  import opened Allowlist

  datatype Selector = Any | One(host: HostId)

  predicate Matches(s: Selector, target: HostId) {
    s.Any? || s.host == target
  }

  datatype Binding = Binding(subject: string, verbs: seq<string>, selectors: seq<Selector>, runAs: seq<string>)

  predicate Allows(b: Binding, subject: string, kind: string, target: HostId, user: string) {
    && b.subject == subject && kind != ""
    && Lists(b.verbs, kind)
    && (exists i | 0 <= i < |b.selectors| :: Matches(b.selectors[i], target))
    && Lists(b.runAs, user)
  }

  /** Some binding grants the action on the host. */
  ghost predicate Granted(bindings: seq<Binding>, subject: string, kind: string, target: HostId, user: string) {
    exists i | 0 <= i < |bindings| :: Allows(bindings[i], subject, kind, target, user)
  }

  /**
    What it takes to be granted: one binding of the subject that names verb, host and user, or has
    wildcards for them.
   */
  lemma GrantedIff(bindings: seq<Binding>, subject: string, kind: string, target: HostId, user: string)
    ensures Granted(bindings, subject, kind, target, user)
            <==> kind != ""
                 && exists b | b in bindings ::
                      && b.subject == subject
                      && ("*" in b.verbs || kind in b.verbs)
                      && (Any in b.selectors || One(target) in b.selectors)
                      && ("*" in b.runAs || user in b.runAs)
  {
    forall b: Binding
      ensures Allows(b, subject, kind, target, user)
              <==> && kind != "" && b.subject == subject && ("*" in b.verbs || kind in b.verbs)
                   && (Any in b.selectors || One(target) in b.selectors) && ("*" in b.runAs || user in b.runAs)
    {
      ListsIff(b.verbs, kind);
      ListsIff(b.runAs, user);
      SelectsIff(b.selectors, target);
    }
    if i :| 0 <= i < |bindings| && Allows(bindings[i], subject, kind, target, user) {
      assert bindings[i] in bindings;
    }
  }

  lemma SelectsIff(selectors: seq<Selector>, target: HostId)
    ensures (exists i | 0 <= i < |selectors| :: Matches(selectors[i], target))
            <==> Any in selectors || One(target) in selectors
  {
    if i :| 0 <= i < |selectors| && Matches(selectors[i], target) {
      assert selectors[i] in selectors;
    }
  }

  type UuidParser = string -> Option<HostId>

  /** A target that is not a host id is denied like one that no binding covers. */
  method Authorize(bindings: seq<Binding>, parse: UuidParser, subject: string, kind: string, target: string,
                   user: string)
    returns (ok: bool)
    ensures ok <==> parse(target).Some? && Granted(bindings, subject, kind, parse(target).value, user)
  {
    if parse(target).None? {
      return false;
    }
    for i := 0 to |bindings|
      invariant forall j | 0 <= j < i :: !Allows(bindings[j], subject, kind, parse(target).value, user)
    {
      if Allows(bindings[i], subject, kind, parse(target).value, user) {
        return true;
      }
    }
    ok := false;
  }
}
