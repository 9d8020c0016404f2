/**
  The operator service: resolving a selector, and the fan-out that authorizes and audits
  each host before it dispatches.
 */
module Service {
  import opened Wrappers
  import opened Uuid
  import opened Policy
  import opened Strings
  import opened Collections

  const MAX_FANOUT := 1024

  // --- resolve ---

  function Split(s: string, sep: char): (parts: seq<string>)
    ensures parts != []
  {
    if s == [] then [[]]
    else
      var rest := Split(s[1..], sep);
      if s[0] == sep then [[]] + rest else [[s[0]] + rest[0]] + rest[1..]
  }

  function Join(parts: seq<string>, sep: char): string
    requires parts != []
  {
    if |parts| == 1 then parts[0] else parts[0] + [sep] + Join(parts[1..], sep)
  }

  /** Splitting is undone by joining, and leaves no separator in any part. */
  lemma {:induction false} SplitIs(s: string, sep: char)
    ensures Join(Split(s, sep), sep) == s
    ensures forall i | 0 <= i < |Split(s, sep)| :: sep !in Split(s, sep)[i]
  {
    if s != [] {
      SplitIs(s[1..], sep);
      var rest := Split(s[1..], sep);
      if s[0] == sep {
        assert ([[]] + rest)[1..] == rest;
      } else {
        assert ([[s[0]] + rest[0]] + rest[1..])[1..] == rest[1..];
      }
    }
  }

  /** The tokens of a list selector that are not blank. */
  function Tokens(parts: seq<string>): seq<string> {
    if parts == [] then []
    else
      var t := Trim(parts[|parts| - 1]);
      Tokens(parts[..|parts| - 1]) + (if t == "" then [] else [t])
  }

  /** The tokens are the parts without their white space, except those that are blank. */
  lemma {:induction false} TokensAre(parts: seq<string>, t: string)
    ensures t in Tokens(parts) <==> t != "" && exists i | 0 <= i < |parts| :: Trim(parts[i]) == t
  {
    hide Trim;
    if parts != [] {
      var n := |parts| - 1;
      TokensAre(parts[..n], t);
      assert forall i | 0 <= i < n :: parts[..n][i] == parts[i];
    }
  }

  /** Every element once, at its first occurrence. */
  function Dedup<T(==)>(s: seq<T>): seq<T> {
    if s == [] then []
    else
      var before := Dedup(s[..|s| - 1]);
      if s[|s| - 1] in before then before else before + [s[|s| - 1]]
  }

  lemma {:induction false} DedupIsSet<T>(s: seq<T>)
    ensures NoRepeats(Dedup(s)) && (forall x :: x in Dedup(s) <==> x in s)
    ensures |Dedup(s)| <= |s|
  {
    if s != [] {
      var n := |s| - 1;
      DedupIsSet(s[..n]);
      assert s == s[..n] + [s[n]];
    }
  }

  lemma {:induction false} DedupMember<T>(s: seq<T>, k: nat)
    requires k < |Dedup(s)|
    ensures Dedup(s)[k] in s
  {
    var n := |s| - 1;
    assert s == s[..n] + [s[n]];
    if k < |Dedup(s[..n])| {
      DedupMember(s[..n], k);
    }
  }

  lemma {:induction false} DedupKeeps<T>(s: seq<T>, k: nat)
    requires k < |s|
    ensures s[k] in Dedup(s)
  {
    if k < |s| - 1 {
      DedupKeeps(s[..|s| - 1], k);
    }
  }

  /** The first position of an element. */
  function FirstIndex<T(==)>(s: seq<T>, x: T): (i: nat)
    requires x in s
    ensures i < |s| && s[i] == x && forall k | 0 <= k < i :: s[k] != x
  {
    if s[0] == x then 0 else assert s == [s[0]] + s[1..]; FirstIndex(s[1..], x) + 1
  }

  /** Elements are kept in the order in which they first occur. */
  lemma {:induction false} DedupInOrder<T>(s: seq<T>, i: nat, j: nat)
    requires i < j < |Dedup(s)|
    ensures Dedup(s)[i] in s && Dedup(s)[j] in s && FirstIndex(s, Dedup(s)[i]) < FirstIndex(s, Dedup(s)[j])
  {
    var n := |s| - 1;
    var before, x, y := Dedup(s[..n]), Dedup(s)[i], Dedup(s)[j];
    DedupMember(s, i);
    DedupMember(s, j);
    assert s == s[..n] + [s[n]] && x == before[i];
    DedupMember(s[..n], i);
    SameFirst(s, n, x);
    if j < |before| {
      DedupInOrder(s[..n], i, j);
      DedupMember(s[..n], j);
      SameFirst(s, n, y);
    } else {
      forall k | 0 <= k < n
        ensures s[k] != y
      {
        DedupKeeps(s[..n], k);
      }
    }
  }

  lemma SameFirst<T>(s: seq<T>, n: nat, x: T)
    requires n <= |s| && x in s[..n]
    ensures x in s && FirstIndex(s, x) == FirstIndex(s[..n], x)
  {
    var i := FirstIndex(s[..n], x);
    assert s[i] == x && forall k | 0 <= k < i :: s[k] == s[..n][k];
  }

  datatype ResolveError = NotAHost | TooMany(count: nat) | BridgeUnavailable

  /** The hosts the tokens name, unless one names none. */
  function ParseAll(parse: UuidParser, tokens: seq<string>): Option<seq<HostId>> {
    if tokens == [] then Some([])
    else
      var n := |tokens| - 1;
      var before, last := ParseAll(parse, tokens[..n]), parse(tokens[n]);
      if before.None? || last.None? then None else Some(before.value + [last.value])
  }

  /** What a selector stands for: `online` is the bridge's answer to `*`, if it gives one. */
  function Resolved(parse: UuidParser, selector: string, online: Option<seq<HostId>>)
    : Result<seq<HostId>, ResolveError>
  {
    var named := if selector == "*" then online else ParseAll(parse, Tokens(Split(selector, ',')));
    if named.None? then Err(if selector == "*" then BridgeUnavailable else NotAHost)
    else if |Dedup(named.value)| > MAX_FANOUT then Err(TooMany(|Dedup(named.value)|))
    else Ok(Dedup(named.value))
  }

  lemma {:induction false} ParseAllEach(parse: UuidParser, tokens: seq<string>)
    ensures var r := ParseAll(parse, tokens);
      && (r.None? <==> Malformed(parse, tokens))
      && (r.Some? ==> |r.value| == |tokens| && forall i | 0 <= i < |tokens| :: parse(tokens[i]) == Some(r.value[i]))
  {
    if tokens != [] {
      var n := |tokens| - 1;
      ParseAllEach(parse, tokens[..n]);
      if Malformed(parse, tokens[..n]) {
        var i :| 0 <= i < n && parse(tokens[..n][i]).None?;
        assert parse(tokens[i]).None?;
      }
    }
  }

  ghost predicate Malformed(parse: UuidParser, tokens: seq<string>) {
    exists i | 0 <= i < |tokens| :: parse(tokens[i]).None?
  }

  lemma ParseAllNext(parse: UuidParser, tokens: seq<string>, t: string)
    ensures ParseAll(parse, tokens + [t])
            == if ParseAll(parse, tokens).None? || parse(t).None? then None
               else Some(ParseAll(parse, tokens).value + [parse(t).value])
  {
    assert (tokens + [t])[..|tokens|] == tokens;
  }

  lemma TokensNext(parts: seq<string>, i: nat)
    requires i < |parts|
    ensures Tokens(parts[..i + 1])
            == if Trim(parts[i]) == "" then Tokens(parts[..i]) else Tokens(parts[..i]) + [Trim(parts[i])]
    ensures Tokens(parts[..i + 1]) <= Tokens(parts)
  {
    assert parts[..i + 1][..i] == parts[..i];
    TokensPrefix(parts, i + 1);
  }

  /** A token that names no host spoils the list, whatever follows. */
  lemma Spoiled(parse: UuidParser, parts: seq<string>, i: nat)
    requires i < |parts| && Trim(parts[i]) != "" && parse(Trim(parts[i])).None?
    ensures ParseAll(parse, Tokens(parts)).None?
  {
    hide Trim;
    TokensNext(parts, i);
    assert Tokens(parts)[|Tokens(parts[..i])|] == Trim(parts[i]) && Malformed(parse, Tokens(parts));
    ParseAllEach(parse, Tokens(parts));
  }

  method ParseList(parse: UuidParser, selector: string) returns (r: Option<seq<HostId>>)
    ensures r == ParseAll(parse, Tokens(Split(selector, ',')))
  {
    hide Split, Trim, Tokens, ParseAll;
    var parts := Split(selector, ',');
    var hosts := [];
    NoTokens(parse);
    assert parts[..0] == [] && parts[..|parts|] == parts;
    for i := 0 to |parts|
      invariant ParseAll(parse, Tokens(parts[..i])) == Some(hosts)
    {
      TokensNext(parts, i);
      var t := Trim(parts[i]);
      if t != "" {
        var h := parse(t);
        if h.None? {
          Spoiled(parse, parts, i);
          return None;
        }
        ParseAllNext(parse, Tokens(parts[..i]), t);
        hosts := hosts + [h.value];
      }
    }
    r := Some(hosts);
  }

  lemma NoTokens(parse: UuidParser)
    ensures ParseAll(parse, Tokens([])) == Some([])
  {
  }

  lemma {:induction false} TokensPrefix(parts: seq<string>, n: nat)
    requires n <= |parts|
    ensures Tokens(parts[..n]) <= Tokens(parts)
    decreases |parts|
  {
    if n == |parts| {
      assert parts[..n] == parts;
    } else {
      var before := parts[..|parts| - 1];
      assert before[..n] == parts[..n];
      TokensPrefix(before, n);
    }
  }

  method RetainFirst(hosts: seq<HostId>) returns (kept: seq<HostId>)
    ensures kept == Dedup(hosts)
  {
    var seen: set<HostId> := {};
    kept := [];
    for i := 0 to |hosts|
      invariant kept == Dedup(hosts[..i])
      invariant forall h :: h in seen <==> h in kept
    {
      assert hosts[..i + 1][..i] == hosts[..i];
      if hosts[i] !in seen {
        seen := seen + {hosts[i]};
        kept := kept + [hosts[i]];
      }
    }
    assert hosts[..|hosts|] == hosts;
  }

  method Resolve(parse: UuidParser, selector: string, online: Option<seq<HostId>>)
    returns (r: Result<seq<HostId>, ResolveError>)
    ensures r == Resolved(parse, selector, online)
  {
    hide Split, Tokens, Dedup, ParseAll;
    var hosts := [];
    if selector == "*" {
      if online.None? {
        return Err(BridgeUnavailable);
      }
      hosts := online.value;
    } else {
      var listed := ParseList(parse, selector);
      if listed.None? {
        return Err(NotAHost);
      }
      hosts := listed.value;
    }
    var kept := RetainFirst(hosts);
    if |kept| > MAX_FANOUT {
      return Err(TooMany(|kept|));
    }
    r := Ok(kept);
  }

  /** The hosts a selector names: those online, or those its tokens parse to. */
  ghost predicate Names(parse: UuidParser, selector: string, online: Option<seq<HostId>>, h: HostId) {
    if selector == "*" then online.Some? && h in online.value
    else exists i | 0 <= i < |Tokens(Split(selector, ','))| :: parse(Tokens(Split(selector, ','))[i]) == Some(h)
  }

  /**
    A selector stands for exactly the hosts it names, each once, at most 1024 of them.  It
    is refused exactly if a token names no host, the bridge does not answer, or it names
    more than that, and then the error counts them.
   */
  lemma ResolvedNames(parse: UuidParser, selector: string, online: Option<seq<HostId>>)
    ensures var r := Resolved(parse, selector, online);
      && (r.Ok? ==>
            && NoRepeats(r.value) && |r.value| <= MAX_FANOUT
            && forall h :: h in r.value <==> Names(parse, selector, online, h))
      && (r == Err(BridgeUnavailable) <==> selector == "*" && online.None?)
      && (r == Err(NotAHost) <==> selector != "*" && Malformed(parse, Tokens(Split(selector, ','))))
      && (r.Err? && r.error.TooMany? ==>
            r.error.count > MAX_FANOUT
            && exists hosts: seq<HostId> ::
                 && |hosts| == r.error.count && NoRepeats(hosts)
                 && forall h :: h in hosts <==> Names(parse, selector, online, h))
  {
    hide Split, Tokens, Dedup, ParseAll;
    var tokens := Tokens(Split(selector, ','));
    ParseAllEach(parse, tokens);
    var named := if selector == "*" then online else ParseAll(parse, tokens);
    if named.Some? {
      DedupIsSet(named.value);
      forall h
        ensures h in Dedup(named.value) <==> Names(parse, selector, online, h)
      {
        if selector != "*" && h in named.value {
          var i :| 0 <= i < |named.value| && named.value[i] == h;
          assert parse(tokens[i]) == Some(h);
        }
      }
    }
  }
}
