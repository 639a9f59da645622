/** The text form of extended attribute rules: each rule brings its own delimiter. */
module XattrParse {
  import opened Common
  import opened XattrMap

  datatype ErrorKind =
    | InvalidScope | InvalidType | InvalidDelimiter | IncompleteRule | MapRuleViolation | NoRulesProvided

  /** The outcome of parsing; a field that holds a NUL character makes the parser panic. */
  datatype Parsed = Parsed(rules: Rules) | Failed(kind: ErrorKind, rule: Option<nat>) | Panicked

  datatype Token = Token(bytes: seq<Byte>, rest: string) | NoToken | NulInToken

  datatype OneRule = OneRule(rule: Rule, rest: string) | BadRule(kind: ErrorKind) | RulePanics

  // ---------------------------------------------------------------- characters

  /** Characters are cut down to their low byte. */
  function Low(c: char): Byte {
    (c as int % 0x100) as char
  }

  function Bytes(s: string): seq<Byte> {
    seq(|s|, i requires 0 <= i < |s| => Low(s[i]))
  }

  /** Characters that are their own low bytes. */
  predicate AreBytes(s: string) {
    forall i | 0 <= i < |s| :: s[i] as int < 0x100
  }

  lemma BytesOfBytes(s: string)
    requires AreBytes(s)
    ensures Bytes(s) == s
  {
    assert forall i | 0 <= i < |s| :: Low(s[i]) == s[i];
  }

  predicate AsciiSpace(c: char) {
    c as int in {0x09, 0x0a, 0x0c, 0x0d, 0x20}
  }

  /** The Unicode property White_Space. */
  predicate Space(c: char) {
    var n := c as int;
    || 0x09 <= n <= 0x0d || n in {0x20, 0x85, 0xa0, 0x1680, 0x2028, 0x2029, 0x202f, 0x205f, 0x3000}
    || 0x2000 <= n <= 0x200a
  }

  function TrimStart(s: string): string {
    if s != [] && Space(s[0]) then TrimStart(s[1..]) else s
  }

  function TrimEnd(s: string): string {
    if s != [] && Space(s[|s| - 1]) then TrimEnd(s[..|s| - 1]) else s
  }

  // ---------------------------------------------------------------- the grammar

  /** The bytes up to the next delimiter, and what follows it. */
  function NextToken(s: string, delim: char): (t: Token)
    ensures t.Token? ==> |t.rest| < |s|
    ensures !t.NulInToken?
  {
    if s == [] then NoToken
    else if s[0] == delim then Token([], s[1..])
    else
      var t := NextToken(s[1..], delim);
      if t.Token? then Token([Low(s[0])] + t.bytes, t.rest) else NoToken
  }

  function CStringToken(s: string, delim: char): (t: Token)
    ensures t.Token? ==> |t.rest| < |s| && IsCString(t.bytes)
  {
    var t := NextToken(s, delim);
    if t.Token? && !IsCString(t.bytes) then NulInToken else t
  }

  function KindName(k: Kind): string {
    match k
    case Prefix => "prefix"
    case Okay => "ok"
    case Bad => "bad"
    case Unsupported => "unsupported"
    case Map => "map"
  }

  function ScopeName(s: Scope): string {
    match s
    case All => "all"
    case Client => "client"
    case Server => "server"
  }

  function KindOf(b: seq<Byte>): Option<Kind> {
    if b == "prefix" then Some(Prefix)
    else if b == "ok" then Some(Okay)
    else if b == "bad" then Some(Bad)
    else if b == "unsupported" then Some(Unsupported)
    else if b == "map" then Some(Map)
    else None
  }

  function ScopeOf(b: seq<Byte>): Option<Scope> {
    if b == "all" then Some(All)
    else if b == "client" then Some(Client)
    else if b == "server" then Some(Server)
    else None
  }

  function Fields(s: string, delim: char, kind: Kind, scope: Scope): (r: OneRule)
    ensures r.OneRule? ==> |r.rest| < |s| && r.rule.kind == kind
  {
    var key := CStringToken(s, delim);
    if key.NulInToken? then RulePanics
    else if key.NoToken? then BadRule(IncompleteRule)
    else
      var prepend := CStringToken(key.rest, delim);
      if prepend.NulInToken? then RulePanics
      else if prepend.NoToken? then BadRule(IncompleteRule)
      else OneRule(Rule(scope, kind, key.bytes, prepend.bytes), prepend.rest)
  }

  function FromTokens(s: string): (r: OneRule)
    ensures r.OneRule? ==> |r.rest| < |s|
  {
    if s == [] then BadRule(InvalidDelimiter)
    else
      var delim, kind := s[0], NextToken(s[1..], s[0]);
      if !kind.Token? then BadRule(IncompleteRule)
      else if KindOf(kind.bytes).None? then BadRule(InvalidType)
      else if KindOf(kind.bytes).value == Map then Fields(kind.rest, delim, Map, All)
      else
        var scope := NextToken(kind.rest, delim);
        if !scope.Token? then BadRule(IncompleteRule)
        else if ScopeOf(scope.bytes).None? then BadRule(InvalidScope)
        else Fields(scope.rest, delim, KindOf(kind.bytes).value, ScopeOf(scope.bytes).value)
  }

  /** Parses what is left after some rules: a `map` rule is expanded, and nothing may follow it. */
  function Parse(s: string, rules: Rules): Parsed
    decreases |s|
  {
    if s == [] then if rules == [] then Failed(NoRulesProvided, None) else Parsed(rules)
    else if AsciiSpace(s[0]) then Parse(s[1..], rules)
    else
      match FromTokens(s)
      case RulePanics => Panicked
      case BadRule(kind) => Failed(kind, Some(|rules| + 1))
      case OneRule(rule, rest) =>
        if rule.kind == Map && rest != [] then Failed(MapRuleViolation, Some(|rules| + 1))
        else Parse(rest, rules + Meaning(rule))
  }

  function Meaning(rule: Rule): Rules {
    if rule.kind == Map then Expanded(rule.key, rule.prepend) else [rule]
  }

  // ---------------------------------------------------------------- the parser

  /** The whole token is what has been read followed by the token ahead. */
  ghost predicate Reading(whole: Token, bytes: seq<Byte>, ahead: Token) {
    whole == if ahead.Token? then Token(bytes + ahead.bytes, ahead.rest) else NoToken
  }

  lemma NextTokenStep(s: string, delim: char)
    ensures var t := NextToken(s, delim);
            if s == [] then t == NoToken
            else if s[0] == delim then t == Token([], s[1..])
            else
              var ahead := NextToken(s[1..], delim);
              t == if ahead.Token? then Token([Low(s[0])] + ahead.bytes, ahead.rest) else NoToken
  {
  }

  lemma ReadStart(s: string, delim: char)
    ensures Reading(NextToken(s, delim), [], NextToken(s, delim))
  {
    var t := NextToken(s, delim);
    hide NextToken;
    if t.Token? { NothingMore(t.bytes); }
  }

  lemma ReadNext(whole: Token, bytes: seq<Byte>, b: Byte, ahead: Token)
    requires Reading(whole, bytes, if ahead.Token? then Token([b] + ahead.bytes, ahead.rest) else NoToken)
    ensures Reading(whole, bytes + [b], ahead)
  {
    if ahead.Token? { Regroup(bytes, [b], ahead.bytes); }
  }

  method ReadToken(s: string, delim: char) returns (t: Token)
    ensures t == NextToken(s, delim)
  {
    var tokens, bytes: seq<Byte> := s, [];
    ReadStart(s, delim);
    hide NextToken;
    while tokens != []
      invariant Reading(NextToken(s, delim), bytes, NextToken(tokens, delim))
      decreases |tokens|
    {
      NextTokenStep(tokens, delim);
      if tokens[0] == delim {
        NothingMore(bytes);
        return Token(bytes, tokens[1..]);
      }
      ReadNext(NextToken(s, delim), bytes, Low(tokens[0]), NextToken(tokens[1..], delim));
      bytes := bytes + [Low(tokens[0])];
      tokens := tokens[1..];
    }
    NextTokenStep([], delim);
    return NoToken;
  }

  method ReadFields(s: string, delim: char, kind: Kind, scope: Scope) returns (r: OneRule)
    ensures r == Fields(s, delim, kind, scope)
  {
    var key := ReadToken(s, delim);
    if !key.Token? { return BadRule(IncompleteRule); }
    if !IsCString(key.bytes) { return RulePanics; }
    var prepend := ReadToken(key.rest, delim);
    if !prepend.Token? { return BadRule(IncompleteRule); }
    if !IsCString(prepend.bytes) { return RulePanics; }
    return OneRule(Rule(scope, kind, key.bytes, prepend.bytes), prepend.rest);
  }

  method ReadRule(s: string) returns (r: OneRule)
    ensures r == FromTokens(s)
  {
    if s == [] { return BadRule(InvalidDelimiter); }
    var token := ReadToken(s[1..], s[0]);
    if !token.Token? { return BadRule(IncompleteRule); }
    var kind := KindOf(token.bytes);
    if kind.None? { return BadRule(InvalidType); }
    if kind.value == Map {
      r := ReadFields(token.rest, s[0], Map, All);
      return;
    }
    token := ReadToken(token.rest, s[0]);
    if !token.Token? { return BadRule(IncompleteRule); }
    var scope := ScopeOf(token.bytes);
    if scope.None? { return BadRule(InvalidScope); }
    r := ReadFields(token.rest, s[0], kind.value, scope.value);
  }

  method TryFrom(input: string) returns (r: Parsed)
    ensures r == Parse(TrimEnd(TrimStart(input)), [])
  {
    var unparsed := TrimEnd(TrimStart(input));
    var rules: Rules := [];
    while unparsed != []
      invariant Parse(unparsed, rules) == Parse(TrimEnd(TrimStart(input)), [])
      decreases |unparsed|
    {
      if AsciiSpace(unparsed[0]) {
        unparsed := unparsed[1..];
        continue;
      }
      var one := ReadRule(unparsed);
      match one {
        case RulePanics => return Panicked;
        case BadRule(kind) => return Failed(kind, Some(|rules| + 1));
        case OneRule(rule, rest) =>
          if rule.kind == Map && rest != [] { return Failed(MapRuleViolation, Some(|rules| + 1)); }
          unparsed := rest;
          rules := rules + Meaning(rule);
      }
    }
    return if rules == [] then Failed(NoRulesProvided, None) else Parsed(rules);
  }

  // ---------------------------------------------------------------- printing, then parsing

  /** A rule with the delimiter it is written with and the white space after it. */
  datatype Written = Written(delim: char, rule: Rule, gap: string)

  /** A rule in front of more text. */
  function Print(delim: char, r: Rule, rest: string): string {
    var fields := r.key + [delim] + (r.prepend + [delim] + rest);
    [delim] + (KindName(r.kind) + [delim] + if r.kind == Map then fields else ScopeName(r.scope) + [delim] + fields)
  }

  /** The delimiter is not white space and not part of what it delimits; the fields are C strings of bytes. */
  predicate Printable(delim: char, r: Rule) {
    && !Space(delim) && delim !in KindName(r.kind) && delim !in r.key && delim !in r.prepend
    && (if r.kind == Map then r.scope == All else delim !in ScopeName(r.scope))
    && IsCString(r.key) && IsCString(r.prepend) && AreBytes(r.key) && AreBytes(r.prepend)
  }

  /** Only the last rule may be a `map` rule. */
  predicate AllPrintable(ws: seq<Written>) {
    forall i | 0 <= i < |ws| ::
      && Printable(ws[i].delim, ws[i].rule) && (forall c <- ws[i].gap :: AsciiSpace(c))
      && (i < |ws| - 1 ==> ws[i].rule.kind != Map)
  }

  /** The rules one after the other, with white space between them. */
  function PrintAll(ws: seq<Written>): string {
    if ws == [] then ""
    else Print(ws[0].delim, ws[0].rule, if |ws| == 1 then "" else ws[0].gap + PrintAll(ws[1..]))
  }

  function Meanings(ws: seq<Written>): Rules {
    if ws == [] then [] else Meaning(ws[0].rule) + Meanings(ws[1..])
  }

  lemma {:induction false} TokenIsRead(field: string, delim: char, rest: string)
    requires delim !in field
    ensures NextToken(field + [delim] + rest, delim) == Token(Bytes(field), rest)
  {
    var s := field + [delim] + rest;
    if field == [] {
      assert s[1..] == rest;
    } else {
      assert s[1..] == field[1..] + [delim] + rest;
      TokenIsRead(field[1..], delim, rest);
      assert Bytes(field) == [Low(field[0])] + Bytes(field[1..]);
    }
  }

  lemma FieldsAreRead(r: Rule, delim: char, rest: string)
    requires Printable(delim, r)
    ensures Fields(r.key + [delim] + (r.prepend + [delim] + rest), delim, r.kind, r.scope) == OneRule(r, rest)
  {
    BytesOfBytes(r.key);
    BytesOfBytes(r.prepend);
    TokenIsRead(r.key, delim, r.prepend + [delim] + rest);
    TokenIsRead(r.prepend, delim, rest);
  }

  lemma KindIsRead(k: Kind)
    ensures KindOf(Bytes(KindName(k))) == Some(k)
  {
    BytesOfBytes(KindName(k));
  }

  lemma ScopeIsRead(s: Scope)
    ensures ScopeOf(Bytes(ScopeName(s))) == Some(s)
  {
    BytesOfBytes(ScopeName(s));
  }

  lemma RuleIsRead(delim: char, r: Rule, rest: string)
    requires Printable(delim, r)
    ensures FromTokens(Print(delim, r, rest)) == OneRule(r, rest)
  {
    var s, fields := Print(delim, r, rest), r.key + [delim] + (r.prepend + [delim] + rest);
    FieldsAreRead(r, delim, rest);
    KindIsRead(r.kind);
    ScopeIsRead(r.scope);
    hide KindName, ScopeName, KindOf, ScopeOf, Fields, Bytes, NextToken, Space, IsCString, AreBytes;
    assert s[1..] == KindName(r.kind) + [delim]
                     + if r.kind == Map then fields else ScopeName(r.scope) + [delim] + fields;
    if r.kind == Map {
      TokenIsRead(KindName(r.kind), delim, fields);
    } else {
      TokenIsRead(KindName(r.kind), delim, ScopeName(r.scope) + [delim] + fields);
      TokenIsRead(ScopeName(r.scope), delim, fields);
    }
  }

  lemma AllPrintableTail(ws: seq<Written>)
    requires AllPrintable(ws) && |ws| > 1
    ensures AllPrintable(ws[1..]) && forall c <- ws[0].gap :: AsciiSpace(c)
  {
  }

  lemma MeaningIsSome(r: Rule)
    ensures Meaning(r) != []
  {
  }

  lemma RuleIsParsed(delim: char, r: Rule, rest: string, rules: Rules)
    requires Printable(delim, r) && (r.kind == Map ==> rest == "")
    ensures Parse(Print(delim, r, rest), rules) == Parse(rest, rules + Meaning(r))
  {
    RuleIsRead(delim, r, rest);
    assert Print(delim, r, rest)[0] == delim && !AsciiSpace(delim);
    hide Print, FromTokens, Meaning, AsciiSpace, Space, Printable;
  }

  lemma {:induction false} GapIsSkipped(gap: string, s: string, rules: Rules)
    requires forall c <- gap :: AsciiSpace(c)
    ensures Parse(gap + s, rules) == Parse(s, rules)
  {
    if gap == [] {
      assert gap + s == s;
    } else {
      assert (gap + s)[1..] == gap[1..] + s;
      GapIsSkipped(gap[1..], s, rules);
    }
  }

  lemma LastIsRead(ws: seq<Written>, rules: Rules)
    requires AllPrintable(ws) && |ws| == 1
    ensures Parse(PrintAll(ws), rules) == Parsed(rules + Meanings(ws))
  {
    RuleIsParsed(ws[0].delim, ws[0].rule, "", rules);
    MeaningIsSome(ws[0].rule);
    assert Meanings(ws) == Meaning(ws[0].rule);
    hide Print, Printable, Meaning, Meanings, AsciiSpace, FromTokens;
  }

  lemma FirstIsRead(ws: seq<Written>, rules: Rules)
    requires AllPrintable(ws) && |ws| > 1
    ensures AllPrintable(ws[1..])
    ensures Parse(PrintAll(ws), rules) == Parse(PrintAll(ws[1..]), rules + Meaning(ws[0].rule))
  {
    var w := ws[0];
    RuleIsParsed(w.delim, w.rule, w.gap + PrintAll(ws[1..]), rules);
    AllPrintableTail(ws);
    hide Parse, Print, AllPrintable, Meaning, AsciiSpace;
    GapIsSkipped(w.gap, PrintAll(ws[1..]), rules + Meaning(w.rule));
  }

  lemma {:induction false} PrintedAreRead(ws: seq<Written>, rules: Rules)
    requires AllPrintable(ws) && ws != []
    ensures Parse(PrintAll(ws), rules) == Parsed(rules + Meanings(ws))
  {
    hide AllPrintable, Parse, PrintAll, Meaning;
    if |ws| == 1 {
      LastIsRead(ws, rules);
    } else {
      FirstIsRead(ws, rules);
      PrintedAreRead(ws[1..], rules + Meaning(ws[0].rule));
      assert rules + Meaning(ws[0].rule) + Meanings(ws[1..]) == rules + Meanings(ws);
    }
  }

  lemma {:induction false} TrimmedStart(lead: string, s: string)
    requires (forall c <- lead :: Space(c)) && s != [] && !Space(s[0])
    ensures TrimStart(lead + s) == s
  {
    if lead == [] {
      assert lead + s == s;
    } else {
      assert (lead + s)[1..] == lead[1..] + s;
      TrimmedStart(lead[1..], s);
    }
  }

  lemma {:induction false} TrimmedEnd(s: string, trail: string)
    requires (forall c <- trail :: Space(c)) && s != [] && !Space(s[|s| - 1])
    ensures TrimEnd(s + trail) == s
  {
    if trail == [] {
      assert s + trail == s;
    } else {
      assert (s + trail)[..|s + trail| - 1] == s + trail[..|trail| - 1];
      TrimmedEnd(s, trail[..|trail| - 1]);
    }
  }

  lemma PrintEnds(delim: char, r: Rule, rest: string)
    ensures var s := Print(delim, r, rest);
            s != [] && s[0] == delim && s[|s| - 1] == if rest == "" then delim else rest[|rest| - 1]
  {
    hide KindName, ScopeName;
  }

  lemma {:induction false} PrintedEnds(ws: seq<Written>)
    requires AllPrintable(ws) && ws != []
    ensures var s := PrintAll(ws); s != [] && !Space(s[0]) && !Space(s[|s| - 1])
  {
    var rest := if |ws| == 1 then "" else ws[0].gap + PrintAll(ws[1..]);
    assert PrintAll(ws) == Print(ws[0].delim, ws[0].rule, rest);
    assert Printable(ws[0].delim, ws[0].rule) && !Space(ws[0].delim);
    if |ws| > 1 { AllPrintableTail(ws); }
    hide Print, PrintAll, Space, AllPrintable, Printable, AsciiSpace;
    PrintEnds(ws[0].delim, ws[0].rule, rest);
    if |ws| > 1 { PrintedEnds(ws[1..]); }
  }

  /** Any non-empty list of rules, each written with a delimiter of its own, is read back as the same list; a
      `map` rule at the end is read back as the rules it stands for. White space around and between rules
      does not matter. */
  lemma ParseUndoesPrint(lead: string, ws: seq<Written>, trail: string)
    requires AllPrintable(ws) && ws != []
    requires (forall c <- lead :: Space(c)) && (forall c <- trail :: Space(c))
    ensures Parse(TrimEnd(TrimStart(lead + PrintAll(ws) + trail)), []) == Parsed(Meanings(ws))
  {
    hide Parse, PrintAll, Space, AllPrintable, TrimStart, TrimEnd, Meanings;
    var s := PrintAll(ws);
    PrintedEnds(ws);
    assert lead + s + trail == lead + (s + trail);
    TrimmedStart(lead, s + trail);
    TrimmedEnd(s, trail);
    PrintedAreRead(ws, []);
  }

  /** Without a `map` rule the meaning of the list is the list. */
  lemma {:induction false} MeaningsOfPlain(ws: seq<Written>)
    requires forall i | 0 <= i < |ws| :: ws[i].rule.kind != Map
    ensures Meanings(ws) == seq(|ws|, i requires 0 <= i < |ws| => ws[i].rule)
  {
    if ws == [] {
    } else {
      MeaningsOfPlain(ws[1..]);
    }
  }
}
