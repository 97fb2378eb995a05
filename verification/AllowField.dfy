/** The text of an Allow field (src/router.cpp, `allow_field_value`), read back as a list field is read. */
module AllowFields {
  import opened Text
  import opened Messages
  import opened Fields

  const ALL_METHODS: seq<Method> := [Get, Method.Head, Post, Put, Patch, Delete, Options]

  function MethodName(verb: Method): (r: string)
    ensures MethodFromToken(r) == Some(verb)
    ensures IsMember(r)
  {
    match verb
    case Get => "GET"
    case Head => "HEAD"
    case Post => "POST"
    case Put => "PUT"
    case Patch => "PATCH"
    case Delete => "DELETE"
    case Options => "OPTIONS"
  }

  /** Text that survives as one member of a comma-separated list. */
  predicate IsMember(s: string) { s != "" && forall i :: 0 <= i < |s| ==> s[i] != ',' && !IsBlank(s[i]) }

  const SEPARATOR := ", "

  function ListText(names: seq<string>): string
    decreases |names|, 1
  {
    if names == [] then "" else names[0] + Others(names)
  }

  /** What follows the first name: a separator and the other names. */
  function Others(names: seq<string>): string
    requires names != []
    decreases |names|, 0
  {
    if |names| == 1 then "" else SEPARATOR + ListText(names[1..])
  }

  lemma {:induction false} ListTextSnoc(names: seq<string>, last: string)
    ensures ListText(names + [last]) == if names == [] then last else ListText(names) + (SEPARATOR + last)
  {
    var grown, tail := names + [last], SEPARATOR + last;
    Associate(last, "", "");
    if names != [] {
      ListTextSnoc(names[1..], last);
      assert grown[1..] == names[1..] + [last];
      Associate(names[0], Others(names), tail);
      if |names| > 1 {
        Associate(SEPARATOR, ListText(names[1..]), tail);
      } else {
        assert Others(names) + tail == tail;
      }
    }
  }

  lemma {:induction false} TrimFinds(s: string, lead: nat, hi: nat)
    requires lead <= 1 && lead < hi <= |s| && (lead == 1 ==> IsBlank(s[0]))
    requires !IsBlank(s[lead]) && !IsBlank(s[hi - 1])
    ensures Trim(s, Span(0, hi)) == Span(lead, hi)
  {
    if lead == 1 {
      assert Trim(s, Span(0, hi)) == Trim(s, Span(1, hi));
    }
  }

  /** The first member of a list, behind at most one blank. */
  lemma FirstMember(lead: string, name: string, rest: string)
    requires (lead == [] || lead == [' ']) && IsMember(name) && (rest == "" || rest[0] == ',')
    ensures ListMembers(lead + name + rest, ',') == [name] + if rest == "" then [] else ListMembers(rest[1..], ',')
  {
    var s := lead + name + rest;
    var next := |lead| + |name|;
    MemberEnds(lead, name, rest);
    TrimFinds(s, |lead|, next);
    assert s[|lead|..next] == name;
    if rest != "" { assert s[next + 1..] == rest[1..]; }
  }

  lemma MemberEnds(lead: string, name: string, rest: string)
    requires (lead == [] || lead == [' ']) && IsMember(name) && (rest == "" || rest[0] == ',')
    ensures Find(lead + name + rest, ',') == |lead| + |name|
    ensures var s := lead + name + rest; !IsBlank(s[|lead|]) && !IsBlank(s[|lead| + |name| - 1])
  {
    var t := lead + name;
    assert t[|lead|] == name[0] && t[|t| - 1] == name[|name| - 1];
    assert (t + rest)[|lead|] == t[|lead|] && (t + rest)[|t| - 1] == t[|t| - 1];
    assert ',' !in lead && ',' !in name;
    FindInPrefix(t, rest, ',', 0);
    assert (t + rest)[|t|..] == rest;
    assert rest != "" ==> (t + rest)[|t|] == ',';
  }

  lemma OthersShape(names: seq<string>)
    requires names != []
    ensures if |names| == 1 then Others(names) == ""
            else Others(names) != "" && Others(names)[0] == ',' && Others(names)[1..] == [' '] + ListText(names[1..])
  {}

  /** One member off a written list. */
  lemma FirstListed(lead: string, names: seq<string>)
    requires (lead == [] || lead == [' ']) && names != [] && IsMember(names[0])
    ensures ListMembers(lead + ListText(names), ',') ==
            [names[0]] + if |names| == 1 then [] else ListMembers([' '] + ListText(names[1..]), ',')
  {
    OthersShape(names);
    Associate(lead, names[0], Others(names));
    FirstMember(lead, names[0], Others(names));
  }

  /** A written list reads back as its members, in order. */
  lemma {:induction false} ListReadsBack(lead: string, names: seq<string>)
    requires (lead == [] || lead == [' ']) && names != [] && forall i :: 0 <= i < |names| ==> IsMember(names[i])
    ensures ListMembers(lead + ListText(names), ',') == names
    decreases |names|
  {
    FirstListed(lead, names);
    assert names == [names[0]] + names[1..];
    if |names| > 1 {
      ListReadsBack([' '], names[1..]);
    }
  }

  /** The names of the methods in a set, in the fixed order, as far as the first `n` of all methods go. */
  function NamesOf(methods: set<Method>, n: nat): (r: seq<string>)
    requires n <= |ALL_METHODS|
    ensures forall i :: 0 <= i < |r| ==> IsMember(r[i])
    ensures forall verb :: MethodName(verb) in r <==> verb in methods && verb in ALL_METHODS[..n]
  {
    if n == 0 then []
    else NamesOf(methods, n - 1) + if ALL_METHODS[n - 1] in methods then [MethodName(ALL_METHODS[n - 1])] else []
  }

  method AppendName(value: string, name: string, ghost names: seq<string>) returns (r: string)
    requires value == ListText(names) && (value == "" <==> names == []) && IsMember(name)
    ensures r == ListText(names + [name]) && r != ""
  {
    ListTextSnoc(names, name);
    Associate(value, SEPARATOR, name);
    r := value;
    if r != "" {
      r := r + SEPARATOR;
    }
    r := r + name;
  }

  lemma NamesOfStep(methods: set<Method>, n: nat)
    requires n < |ALL_METHODS|
    ensures NamesOf(methods, n + 1) ==
            if ALL_METHODS[n] in methods then NamesOf(methods, n) + [MethodName(ALL_METHODS[n])] else NamesOf(methods, n)
  {}

  method AllowFieldValue(methods: set<Method>) returns (value: string)
    ensures value == ListText(NamesOf(methods, |ALL_METHODS|))
  {
    value := "";
    for n := 0 to |ALL_METHODS|
      invariant value == ListText(NamesOf(methods, n)) && (value == "" <==> NamesOf(methods, n) == [])
    {
      var candidate := ALL_METHODS[n];
      NamesOfStep(methods, n);
      if candidate in methods {
        value := AppendName(value, MethodName(candidate), NamesOf(methods, n));
      }
    }
  }

  /** A client reading the Allow field finds exactly the allowed methods. */
  lemma AllowFieldReadsBack(methods: set<Method>, verb: Method)
    requires methods != {}
    ensures MethodName(verb) in ListMembers(ListText(NamesOf(methods, |ALL_METHODS|)), ',') <==> verb in methods
  {
    assert ALL_METHODS[..|ALL_METHODS|] == ALL_METHODS;
    assert forall v: Method :: v in ALL_METHODS by {
      forall v: Method ensures v in ALL_METHODS {
        match v
        case Get => assert ALL_METHODS[0] == v;
        case Head => assert ALL_METHODS[1] == v;
        case Post => assert ALL_METHODS[2] == v;
        case Put => assert ALL_METHODS[3] == v;
        case Patch => assert ALL_METHODS[4] == v;
        case Delete => assert ALL_METHODS[5] == v;
        case Options => assert ALL_METHODS[6] == v;
      }
    }
    var names := NamesOf(methods, |ALL_METHODS|);
    var some :| some in methods;
    assert MethodName(some) in names;
    ListReadsBack([], names);
    assert [] + ListText(names) == ListText(names);
  }
}
