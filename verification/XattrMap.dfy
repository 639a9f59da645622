/** Rules that translate the names of extended attributes between a client and the host. */
module XattrMap {
  import opened Common

  /** A byte, as the character with its code. */
  type Byte = char

  datatype Scope = All | Client | Server

  datatype Kind = Prefix | Okay | Bad | Unsupported | Map

  datatype Rule = Rule(scope: Scope, kind: Kind, key: seq<Byte>, prepend: seq<Byte>)

  /** Rules as they are kept: a `map` rule has been expanded. */
  type Rules = rs: seq<Rule> | forall r <- rs :: r.kind != Map

  predicate IsCString(s: seq<Byte>) {
    '\0' !in s
  }

  predicate Matches(r: Rule, side: Scope, name: seq<Byte>)
    requires side != All
  {
    (r.scope == All || r.scope == side) && (if side == Client then r.key else r.prepend) <= name
  }

  /** The first rule that matches. */
  function FindRule(rules: Rules, side: Scope, name: seq<Byte>): Option<Rule>
    requires side != All
  {
    if rules == [] then None
    else if Matches(rules[0], side, name) then Some(rules[0])
    else FindRule(rules[1..], side, name)
  }

  datatype Applied = Pass(name: seq<Byte>) | Deny | NotSupported

  /** A name used by the client, as it goes to the host; `None` when no rule matches. */
  function ClientMapped(rules: Rules, name: seq<Byte>): Option<Applied> {
    var r := FindRule(rules, Client, name);
    if r.None? then None
    else
      match r.value.kind
      case Okay => Some(Pass(name))
      case Bad => Some(Deny)
      case Unsupported => Some(NotSupported)
      case Prefix => Some(Pass(r.value.prepend + name))
      case Map => None
  }

  /** A name on the host, as the client sees it: not at all, or without the prefix. */
  function ServerMapped(rules: Rules, name: seq<Byte>): Option<Option<seq<Byte>>> {
    var r := FindRule(rules, Server, name);
    if r.None? then None
    else
      match r.value.kind
      case Okay => Some(Some(name))
      case Bad => Some(None)
      case Unsupported => Some(None)
      case Prefix => if |r.value.prepend| <= |name| then Some(Some(name[|r.value.prepend|..])) else None
      case Map => None
  }

  /** The names of a listing that the client sees, in order; one name without a rule fails the listing. */
  function Visible(rules: Rules, names: seq<seq<Byte>>): Option<seq<seq<Byte>>> {
    if names == [] then Some([])
    else
      var before, last := Visible(rules, names[..|names| - 1]), ServerMapped(rules, names[|names| - 1]);
      if before.None? || last.None? then None
      else Some(before.value + if last.value.Some? then [last.value.value] else [])
  }

  // ---------------------------------------------------------------- lists of names

  /** Names one after the other, each ended by a zero byte. */
  function CStrings(names: seq<seq<Byte>>): seq<Byte> {
    if names == [] then [] else names[0] + (['\0'] + CStrings(names[1..]))
  }

  /** Names that can be listed: not empty, and without a zero byte. */
  predicate AreNames(names: seq<seq<Byte>>) {
    forall i | 0 <= i < |names| :: names[i] != [] && IsCString(names[i])
  }

  /** The length of the first name: up to a zero byte, or to the end. */
  function FirstLen(list: seq<Byte>): (n: nat)
    ensures n <= |list| && '\0' !in list[..n] && (n < |list| ==> list[n] == '\0')
  {
    if list == [] || list[0] == '\0' then 0 else 1 + FirstLen(list[1..])
  }

  /** The non-empty stretches between zero bytes. */
  function Pieces(list: seq<Byte>): seq<seq<Byte>>
    decreases |list|
  {
    if list == [] then []
    else
      var n := FirstLen(list);
      (if n == 0 then [] else [list[..n]]) + if n < |list| then Pieces(list[n + 1..]) else []
  }

  lemma {:induction false} FirstLenIs(list: seq<Byte>, k: nat)
    requires k < |list| && list[k] == '\0' && forall i | 0 <= i < k :: list[i] != '\0'
    ensures FirstLen(list) == k
  {
    if k > 0 { FirstLenIs(list[1..], k - 1); }
  }

  lemma PiecesNone()
    ensures Pieces([]) == []
  {
  }

  lemma PiecesFirst(name: seq<Byte>, rest: seq<Byte>)
    requires name != [] && IsCString(name)
    ensures Pieces(name + (['\0'] + rest)) == [name] + Pieces(rest)
  {
    var list := name + (['\0'] + rest);
    FirstLenIs(list, |name|);
    hide FirstLen, IsCString;
    assert list[..|name|] == name && list[|name| + 1..] == rest;
  }

  lemma {:induction false} PiecesOfCStrings(names: seq<seq<Byte>>)
    requires AreNames(names)
    ensures Pieces(CStrings(names)) == names
  {
    hide Pieces, IsCString;
    if names == [] {
      PiecesNone();
    } else {
      var name, rest := names[0], CStrings(names[1..]);
      assert forall i | 0 <= i < |names[1..]| :: names[1..][i] == names[i + 1];
      PiecesOfCStrings(names[1..]);
      PiecesFirst(name, rest);
      assert names == [name] + names[1..];
    }
  }

  lemma Regrouped(a: seq<Byte>, b: seq<Byte>, c: seq<Byte>)
    ensures a + (['\0'] + (b + c + ['\0'])) == (a + (['\0'] + b)) + c + ['\0']
  {
  }

  lemma {:induction false} CStringsJoin(names: seq<seq<Byte>>, name: seq<Byte>)
    ensures CStrings(names + [name]) == CStrings(names) + name + ['\0']
  {
    if names == [] {
      assert [] + [name] == [name] && [name][1..] == [];
    } else {
      assert (names + [name])[1..] == names[1..] + [name] && (names + [name])[0] == names[0];
      CStringsJoin(names[1..], name);
      var rest := CStrings(names[1..]);
      assert CStrings(names) == names[0] + (['\0'] + rest);
      assert CStrings(names + [name]) == names[0] + (['\0'] + (rest + name + ['\0']));
      hide CStrings;
      Regrouped(names[0], rest, name);
    }
  }

  /** Translates a listing of the host; an empty result is a single zero byte. */
  method MapServerXattrlist(rules: Rules, list: seq<Byte>) returns (r: Option<seq<Byte>>)
    ensures r == ServerList(rules, list)
  {
    var names := Pieces(list);
    var filtered: seq<Byte> := [];
    for i := 0 to |names|
      invariant Visible(rules, names[..i]).Some? && filtered == CStrings(Visible(rules, names[..i]).value)
    {
      assert names[..i + 1][..i] == names[..i];
      var mapped := ServerMapped(rules, names[i]);
      if mapped.None? {
        VisibleStops(rules, names, i + 1);
        return None;
      }
      if mapped.value.Some? {
        CStringsJoin(Visible(rules, names[..i]).value, mapped.value.value);
        filtered := filtered + mapped.value.value + ['\0'];
      } else {
        assert Visible(rules, names[..i + 1]).value == Visible(rules, names[..i]).value;
      }
    }
    assert names[..|names|] == names;
    if filtered == [] { filtered := ['\0']; }
    return Some(filtered);
  }

  function ServerList(rules: Rules, list: seq<Byte>): Option<seq<Byte>> {
    var seen := Visible(rules, Pieces(list));
    if seen.None? then None
    else if CStrings(seen.value) == [] then Some(['\0'])
    else Some(CStrings(seen.value))
  }

  lemma {:induction false} VisibleStops(rules: Rules, names: seq<seq<Byte>>, k: nat)
    requires k <= |names| && Visible(rules, names[..k]).None?
    ensures Visible(rules, names).None?
  {
    if k == |names| {
      assert names[..k] == names;
    } else {
      assert names[..|names| - 1][..k] == names[..k];
      VisibleStops(rules, names[..|names| - 1], k);
    }
  }

  // ---------------------------------------------------------------- the map rule

  /** A `map` rule stands for two or three others. */
  function Expanded(key: seq<Byte>, prepend: seq<Byte>): Rules {
    [Rule(All, Prefix, key, prepend)]
    + (if key != [] then [Rule(All, Bad, prepend, key)] else [])
    + [Rule(All, if key != [] then Okay else Bad, [], [])]
  }

  /** What the expanded rules do, each way: the prefix comes and goes, and the names that would collide with
      it are refused or hidden. */
  lemma ExpandedMeans(key: seq<Byte>, prepend: seq<Byte>, name: seq<Byte>)
    ensures ClientMapped(Expanded(key, prepend), name) ==
            Some(if key <= name then Pass(prepend + name) else if prepend <= name then Deny else Pass(name))
    ensures ServerMapped(Expanded(key, prepend), name) ==
            Some(if prepend <= name then Some(name[|prepend|..]) else if key <= name then None else Some(name))
  {
    var first, last := Rule(All, Prefix, key, prepend), Rule(All, if key != [] then Okay else Bad, [], []);
    forall side | side != All
      ensures FindRule(Expanded(key, prepend), side, name) ==
              Some(if Matches(first, side, name) then first
                   else if key != [] && Matches(Rule(All, Bad, prepend, key), side, name)
                   then Rule(All, Bad, prepend, key)
                   else last)
    {
      FindCons(last, [], side, name);
      if key != [] { FindCons(Rule(All, Bad, prepend, key), [last], side, name); }
      FindCons(first, if key != [] then [Rule(All, Bad, prepend, key), last] else [last], side, name);
    }
  }

  lemma FindCons(r: Rule, rest: Rules, side: Scope, name: seq<Byte>)
    requires r.kind != Map && side != All
    ensures FindRule([r] + rest, side, name) == if Matches(r, side, name) then Some(r) else FindRule(rest, side, name)
  {
    assert ([r] + rest)[1..] == rest;
  }

  /** A name that passes comes back as itself, whatever the key and the prefix. */
  lemma MapComesBack(key: seq<Byte>, prepend: seq<Byte>, name: seq<Byte>, host: seq<Byte>)
    requires ClientMapped(Expanded(key, prepend), name) == Some(Pass(host))
    ensures ServerMapped(Expanded(key, prepend), host) == Some(Some(name))
    ensures |host| >= |name| && forall b <- host :: b in prepend || b in name
  {
    ExpandedMeans(key, prepend, name);
    ExpandedMeans(key, prepend, host);
    if key <= name { assert (prepend + name)[..|prepend|] == prepend && (prepend + name)[|prepend|..] == name; }
  }

  /** So no two names that pass are merged. */
  lemma MapKeepsNamesApart(key: seq<Byte>, prepend: seq<Byte>, a: seq<Byte>, b: seq<Byte>)
    requires ClientMapped(Expanded(key, prepend), a) == ClientMapped(Expanded(key, prepend), b)
    requires ClientMapped(Expanded(key, prepend), a).Some? && ClientMapped(Expanded(key, prepend), a).value.Pass?
    ensures a == b
  {
    var host := ClientMapped(Expanded(key, prepend), a).value.name;
    MapComesBack(key, prepend, a, host);
    MapComesBack(key, prepend, b, host);
  }

  lemma {:induction false} MapShows(key: seq<Byte>, prepend: seq<Byte>, names: seq<seq<Byte>>, hosts: seq<seq<Byte>>)
    requires |hosts| == |names|
    requires forall i | 0 <= i < |names| :: ClientMapped(Expanded(key, prepend), names[i]) == Some(Pass(hosts[i]))
    ensures Visible(Expanded(key, prepend), hosts) == Some(names)
  {
    hide ClientMapped, ServerMapped, Expanded;
    if names == [] {
    } else {
      var n := |names| - 1;
      MapShows(key, prepend, names[..n], hosts[..n]);
      MapComesBack(key, prepend, names[n], hosts[n]);
      assert names == names[..n] + [names[n]];
    }
  }

  /** A listing of the host names that any non-empty client names were given is the listing of exactly these
      client names, in order. */
  lemma ListingUndoesMap(key: seq<Byte>, prepend: seq<Byte>, names: seq<seq<Byte>>, hosts: seq<seq<Byte>>)
    requires IsCString(key) && IsCString(prepend) && names != [] && |hosts| == |names|
    requires AreNames(names)
    requires forall i | 0 <= i < |names| :: ClientMapped(Expanded(key, prepend), names[i]) == Some(Pass(hosts[i]))
    ensures ServerList(Expanded(key, prepend), CStrings(hosts)) == Some(CStrings(names))
  {
    hide ClientMapped, ServerMapped, Expanded, Pieces, Visible;
    forall i | 0 <= i < |hosts| ensures hosts[i] != [] && IsCString(hosts[i]) {
      MapComesBack(key, prepend, names[i], hosts[i]);
    }
    PiecesOfCStrings(hosts);
    MapShows(key, prepend, names, hosts);
  }

  /** A `map` rule is more than the `prefix` rule it is described as: alone, that rule leaves every name
      without the key undecided, and every host name without the prefix. */
  lemma PrefixAloneIsPartial(key: seq<Byte>, prepend: seq<Byte>, name: seq<Byte>)
    ensures ClientMapped([Rule(All, Prefix, key, prepend)], name) == ClientMapped(Expanded(key, prepend), name) <==>
            key <= name
    ensures ServerMapped([Rule(All, Prefix, key, prepend)], name) == ServerMapped(Expanded(key, prepend), name) <==>
            prepend <= name
  {
    ExpandedMeans(key, prepend, name);
    assert [Rule(All, Prefix, key, prepend)] == [Rule(All, Prefix, key, prepend)] + [];
    FindCons(Rule(All, Prefix, key, prepend), [], Client, name);
    FindCons(Rule(All, Prefix, key, prepend), [], Server, name);
  }
}
