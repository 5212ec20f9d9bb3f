/** The environment handed to a child process, kept as a flat list of "NAME=value" (src/subprocess.cpp:105-172). */
module ChildEnv {
  import opened Text

  type Env = map<string, string>

  function Entry(name: string, value: string): string {
    name + "=" + value
  }

  /** An environment name: no '=' in it. */
  predicate PlainName(name: string) {
    '=' !in name
  }

  /** The name of an entry: what stands before its first '='. */
  function NameOf(entry: string): string {
    if entry == [] || entry[0] == '=' then [] else [entry[0]] + NameOf(entry[1..])
  }

  function ValueOf(entry: string): string {
    if |NameOf(entry)| < |entry| then entry[|NameOf(entry)| + 1..] else []
  }

  lemma {:induction false} EntryParts(name: string, value: string)
    requires PlainName(name)
    ensures NameOf(Entry(name, value)) == name && ValueOf(Entry(name, value)) == value
  {
    var e := Entry(name, value);
    if name != [] {
      EntryParts(name[1..], value);
      assert e[1..] == Entry(name[1..], value);
    }
    assert NameOf(e) == name;
    assert e[|name| + 1..] == value;
  }

  /** The name of an entry is settled by the text up to any '=' in it. */
  lemma {:induction false} NameOfPrefix(prefix: string, s: string)
    requires prefix <= s && '=' in prefix
    ensures NameOf(s) == NameOf(prefix)
  {
    if prefix[0] != '=' { NameOfPrefix(prefix[1..], s[1..]); }
  }

  // --- The list ---------------------------------------------------------------------

  /** The entry that the source looks for: the first one that starts with "name=". */
  predicate Matches(s: string, name: string) {
    name + "=" <= s
  }

  /** Replace the first entry that matches, or add one at the end. */
  function UpsertOf(strings: seq<string>, name: string, value: string): seq<string> {
    if strings == [] then [Entry(name, value)]
    else if Matches(strings[0], name) then [Entry(name, value)] + strings[1..]
    else [strings[0]] + UpsertOf(strings[1..], name, value)
  }

  /** The list after a whole sequence of insertions. */
  function UpsertAll(requests: seq<(string, string)>): seq<string> {
    if requests == [] then []
    else UpsertOf(UpsertAll(requests[..|requests| - 1]), requests[|requests| - 1].0, requests[|requests| - 1].1)
  }

  method Upsert(strings: seq<string>, name: string, value: string) returns (r: seq<string>)
    ensures r == UpsertOf(strings, name, value)
  {
    var prefix := name + "=";
    assert strings[..0] == [] && strings[0..] == strings;
    for i := 0 to |strings|
      invariant UpsertOf(strings, name, value) == strings[..i] + UpsertOf(strings[i..], name, value)
    {
      assert strings[i..][0] == strings[i] && strings[i..][1..] == strings[i + 1..];
      if |strings[i]| >= |prefix| && strings[i][..|prefix|] == prefix {
        assert strings[i := Entry(name, value)] == strings[..i] + ([Entry(name, value)] + strings[i + 1..]);
        return strings[i := Entry(name, value)];
      }
      Regroup(strings[..i], [strings[i]], UpsertOf(strings[i + 1..], name, value));
      assert strings[..i] + [strings[i]] == strings[..i + 1];
    }
    assert strings[..|strings|] == strings && strings[|strings|..] == [];
    return strings + [Entry(name, value)];
  }

  // --- When every name stands once ----------------------------------------------------

  function Names(strings: seq<string>): (names: seq<string>)
    ensures |names| == |strings|
  {
    seq(|strings|, i requires 0 <= i < |strings| => NameOf(strings[i]))
  }

  ghost predicate Distinct<T>(items: seq<T>) {
    forall i, j :: 0 <= i < j < |items| ==> items[i] != items[j]
  }

  /** An insertion that adds an entry whose name is taken: no entry matches, and still one has that name. */
  predicate Clash(strings: seq<string>, name: string) {
    (forall i :: 0 <= i < |strings| ==> !Matches(strings[i], name)) && NameOf(name + "=") in Names(strings)
  }

  predicate AnyMatches(strings: seq<string>, name: string) {
    exists i :: 0 <= i < |strings| && Matches(strings[i], name)
  }

  lemma MatchHasName(s: string, name: string)
    requires Matches(s, name)
    ensures NameOf(s) == NameOf(name + "=")
  {
    var prefix := name + "=";
    assert prefix[|name|] == '=';
    NameOfPrefix(prefix, s);
  }

  lemma EntryMatches(name: string, value: string)
    ensures Matches(Entry(name, value), name) && NameOf(Entry(name, value)) == NameOf(name + "=")
  {
    assert Entry(name, value)[..|name| + 1] == name + "=";
    MatchHasName(Entry(name, value), name);
  }

  /** An insertion keeps the names as they are if an entry matches, and adds one otherwise. */
  lemma {:induction false} NamesAfter(strings: seq<string>, name: string, value: string)
    ensures Names(UpsertOf(strings, name, value))
         == if AnyMatches(strings, name) then Names(strings) else Names(strings) + [NameOf(name + "=")]
  {
    EntryMatches(name, value);
    if strings == [] {
    } else if Matches(strings[0], name) {
      MatchHasName(strings[0], name);
      assert Names(UpsertOf(strings, name, value)) == Names(strings);
    } else {
      NamesAfter(strings[1..], name, value);
      assert AnyMatches(strings, name) <==> AnyMatches(strings[1..], name) by { MatchesBehind(strings, name); }
      ConsNames(strings[0], UpsertOf(strings[1..], name, value));
      ConsNames(strings[0], strings[1..]);
      assert strings == [strings[0]] + strings[1..];
    }
  }

  lemma ConsNames(s: string, rest: seq<string>)
    ensures Names([s] + rest) == [NameOf(s)] + Names(rest)
  {
  }

  lemma MatchesBehind(strings: seq<string>, name: string)
    requires strings != [] && !Matches(strings[0], name)
    ensures AnyMatches(strings, name) <==> AnyMatches(strings[1..], name)
  {
    if AnyMatches(strings, name) {
      var i :| 0 <= i < |strings| && Matches(strings[i], name);
      assert Matches(strings[1..][i - 1], name);
    }
    if AnyMatches(strings[1..], name) {
      var i :| 0 <= i < |strings[1..]| && Matches(strings[1..][i], name);
      assert Matches(strings[i + 1], name);
    }
  }

  lemma DistinctSnoc<T>(items: seq<T>, x: T)
    ensures Distinct(items + [x]) <==> Distinct(items) && x !in items
  {
    var all := items + [x];
    if Distinct(all) {
      assert forall i, j :: 0 <= i < j < |items| ==> all[i] == items[i] && all[j] == items[j];
      assert forall i :: 0 <= i < |items| ==> all[i] == items[i] && all[|items|] == x;
    }
  }

  /** One insertion: the names stay different exactly if they were and it does not clash. */
  lemma DistinctAfter(strings: seq<string>, name: string, value: string)
    ensures Distinct(Names(UpsertOf(strings, name, value))) <==> Distinct(Names(strings)) && !Clash(strings, name)
  {
    NamesAfter(strings, name, value);
    DistinctSnoc(Names(strings), NameOf(name + "="));
  }

  ghost predicate NeverClashes(requests: seq<(string, string)>) {
    forall k :: 0 <= k < |requests| ==> !ClashAt(requests, k)
  }

  predicate ClashAt(requests: seq<(string, string)>, k: nat)
    requires k < |requests|
  {
    Clash(UpsertAll(requests[..k]), requests[k].0)
  }

  lemma NeverClashesSnoc(requests: seq<(string, string)>)
    requires requests != []
    ensures var init := requests[..|requests| - 1];
      NeverClashes(requests) <==> NeverClashes(init) && !Clash(UpsertAll(init), requests[|requests| - 1].0)
  {
    var init := requests[..|requests| - 1];
    forall k | 0 <= k < |init| ensures ClashAt(init, k) <==> ClashAt(requests, k) {
      assert init[..k] == requests[..k];
    }
    assert ClashAt(requests, |init|) <==> Clash(UpsertAll(init), requests[|init|].0);
  }

  /** A whole run: each name stands once exactly if no insertion clashed with the list it found. */
  lemma {:induction false} DistinctExactly(requests: seq<(string, string)>)
    ensures Distinct(Names(UpsertAll(requests))) <==> NeverClashes(requests)
  {
    if requests != [] {
      var init, last := requests[..|requests| - 1], requests[|requests| - 1];
      DistinctExactly(init);
      DistinctAfter(UpsertAll(init), last.0, last.1);
      NeverClashesSnoc(requests);
    }
  }

  // --- The list read as a map -------------------------------------------------------------

  /** The list as a child's getenv reads it. */
  ghost predicate Reads(strings: seq<string>, env: Env) {
    && (forall i :: 0 <= i < |strings| ==> NameOf(strings[i]) in env && env[NameOf(strings[i])] == ValueOf(strings[i]))
    && (forall name :: name in env ==> name in Names(strings))
  }

  lemma {:induction false} EntriesAfter(strings: seq<string>, name: string, value: string)
    ensures Entry(name, value) in UpsertOf(strings, name, value)
    ensures forall s :: s in UpsertOf(strings, name, value) ==> s == Entry(name, value) || s in strings
  {
    if strings != [] && !Matches(strings[0], name) { EntriesAfter(strings[1..], name, value); }
  }

  /** An insertion replaces one entry that matches, or adds one if none does. */
  lemma {:induction false} UpsertShape(strings: seq<string>, name: string, value: string) returns (i: nat)
    ensures i <= |strings|
    ensures i < |strings| ==> Matches(strings[i], name) && UpsertOf(strings, name, value) == strings[i := Entry(name, value)]
    ensures i == |strings| ==> !AnyMatches(strings, name) && UpsertOf(strings, name, value) == strings + [Entry(name, value)]
  {
    if strings == [] || Matches(strings[0], name) {
      i := 0;
    } else {
      var j := UpsertShape(strings[1..], name, value);
      MatchesBehind(strings, name);
      i := j + 1;
    }
  }

  lemma ReplaceReads(strings: seq<string>, env: Env, i: nat, e: string)
    requires Distinct(Names(strings)) && Reads(strings, env) && i < |strings| && NameOf(e) == NameOf(strings[i])
    ensures Reads(strings[i := e], env[NameOf(e) := ValueOf(e)])
  {
    var all, env' := strings[i := e], env[NameOf(e) := ValueOf(e)];
    assert Names(all) == Names(strings);
    forall k | 0 <= k < |all| && k != i ensures NameOf(all[k]) != NameOf(e) {
      assert Names(strings)[k] != Names(strings)[i];
    }
    assert Names(strings)[i] == NameOf(e);
  }

  lemma AppendReads(strings: seq<string>, env: Env, e: string)
    requires Reads(strings, env) && NameOf(e) !in Names(strings)
    ensures Reads(strings + [e], env[NameOf(e) := ValueOf(e)])
  {
    var all, env' := strings + [e], env[NameOf(e) := ValueOf(e)];
    assert Names(all) == Names(strings) + [NameOf(e)];
    forall k | 0 <= k < |strings| ensures NameOf(strings[k]) != NameOf(e) {
      assert Names(strings)[k] in Names(strings);
    }
    assert Names(all)[|strings|] == NameOf(e);
    forall name | name in env' ensures name in Names(all) {
      if name != NameOf(e) { assert name in Names(strings); }
    }
  }

  /** Without a clash an insertion is the update of a map, at the name that the new entry reads as. */
  lemma ReadsAfter(strings: seq<string>, env: Env, name: string, value: string)
    requires Distinct(Names(strings)) && Reads(strings, env) && !Clash(strings, name)
    ensures Reads(UpsertOf(strings, name, value), env[NameOf(Entry(name, value)) := ValueOf(Entry(name, value))])
  {
    EntryMatches(name, value);
    var i := UpsertShape(strings, name, value);
    if i < |strings| {
      MatchHasName(strings[i], name);
      ReplaceReads(strings, env, i, Entry(name, value));
    } else {
      AppendReads(strings, env, Entry(name, value));
    }
  }

  /** What a sequence of insertions amounts to as a map. */
  function MapOf(requests: seq<(string, string)>): Env {
    if requests == [] then map[]
    else
      var e := Entry(requests[|requests| - 1].0, requests[|requests| - 1].1);
      MapOf(requests[..|requests| - 1])[NameOf(e) := ValueOf(e)]
  }

  lemma {:induction false} ReadsExactly(requests: seq<(string, string)>)
    requires NeverClashes(requests)
    ensures Reads(UpsertAll(requests), MapOf(requests))
  {
    if requests != [] {
      var init, last := requests[..|requests| - 1], requests[|requests| - 1];
      NeverClashesSnoc(requests);
      ReadsExactly(init);
      DistinctExactly(init);
      ReadsAfter(UpsertAll(init), MapOf(init), last.0, last.1);
    }
  }

  // --- Plain names -----------------------------------------------------------------------

  ghost predicate PlainRequests(requests: seq<(string, string)>) {
    forall i :: 0 <= i < |requests| ==> PlainName(requests[i].0)
  }

  ghost predicate IsEntry(s: string) {
    exists name, value :: PlainName(name) && s == Entry(name, value)
  }

  /** An entry starts with "name=" exactly when that is its name. */
  lemma PrefixIsName(s: string, name: string)
    requires IsEntry(s) && PlainName(name)
    ensures Matches(s, name) <==> NameOf(s) == name
  {
    var n, v :| PlainName(n) && s == Entry(n, v);
    EntryParts(n, v);
    EntryParts(name, "");
    if Matches(s, name) { MatchHasName(s, name); }
    if n == name { EntryMatches(n, v); }
  }

  lemma {:induction false} PlainListsHoldEntries(requests: seq<(string, string)>)
    requires PlainRequests(requests)
    ensures forall s :: s in UpsertAll(requests) ==> IsEntry(s)
  {
    if requests != [] {
      var init, last := requests[..|requests| - 1], requests[|requests| - 1];
      PlainListsHoldEntries(init);
      EntriesAfter(UpsertAll(init), last.0, last.1);
      assert IsEntry(Entry(last.0, last.1));
    }
  }

  /** Names without '=' never clash, whatever the values and the order. */
  lemma PlainNamesNeverClash(requests: seq<(string, string)>)
    requires PlainRequests(requests)
    ensures NeverClashes(requests)
  {
    forall k | 0 <= k < |requests| ensures !ClashAt(requests, k) {
      var strings, name := UpsertAll(requests[..k]), requests[k].0;
      PlainListsHoldEntries(requests[..k]);
      EntryParts(name, "");
      assert name + "=" == Entry(name, "");
      forall i | 0 <= i < |strings| ensures Matches(strings[i], name) <==> NameOf(strings[i]) == name {
        PrefixIsName(strings[i], name);
      }
    }
  }

  // --- The builder ---------------------------------------------------------------------------

  /** The requests that the names of a list make, in order: those that getenv knows, the empty name aside. */
  function Passed(parent: Env, names: seq<string>): seq<(string, string)> {
    if names == [] then []
    else
      var name := names[|names| - 1];
      Passed(parent, names[..|names| - 1]) + if name != [] && name in parent then [(name, parent[name])] else []
  }

  /** The explicit values, those of the empty name aside. */
  function Named(values: seq<(string, string)>): seq<(string, string)> {
    if values == [] then []
    else Named(values[..|values| - 1]) + if values[|values| - 1].0 != [] then [values[|values| - 1]] else []
  }

  /** What every child gets: no credentials. */
  function Keep(): seq<string> {
    ["PATH", "HOME", "LANG", "TERM", "USER", "LOGNAME"]
  }

  function Requests(parent: Env, allow: seq<string>, values: seq<(string, string)>): seq<(string, string)> {
    Passed(parent, Keep()) + Passed(parent, allow) + Named(values)
  }

  /** The entries of `parent` under the given names, the empty name aside. */
  function Inherited(parent: Env, names: seq<string>): Env {
    map name | name in names && name != [] && name in parent :: parent[name]
  }

  /** Explicit values in order; later ones win, empty names are skipped. */
  function Explicit(values: seq<(string, string)>): Env {
    if values == [] then map[]
    else
      var (name, value) := values[|values| - 1];
      var before := Explicit(values[..|values| - 1]);
      if name == [] then before else before[name := value]
  }

  lemma UpsertSnoc(requests: seq<(string, string)>, name: string, value: string)
    ensures UpsertAll(requests + [(name, value)]) == UpsertOf(UpsertAll(requests), name, value)
  {
    assert (requests + [(name, value)])[..|requests|] == requests;
  }

  lemma PassedNext(parent: Env, names: seq<string>, i: nat)
    requires i < |names|
    ensures Passed(parent, names[..i + 1])
         == Passed(parent, names[..i]) + if names[i] != [] && names[i] in parent then [(names[i], parent[names[i]])] else []
  {
    assert names[..i + 1][..i] == names[..i];
  }

  method AddPassed(strings: seq<string>, parent: Env, names: seq<string>, ghost before: seq<(string, string)>)
    returns (r: seq<string>)
    requires strings == UpsertAll(before)
    ensures r == UpsertAll(before + Passed(parent, names))
  {
    r := strings;
    assert before + Passed(parent, names[..0]) == before;
    for i := 0 to |names|
      invariant r == UpsertAll(before + Passed(parent, names[..i]))
    {
      PassedNext(parent, names, i);
      ghost var sofar := before + Passed(parent, names[..i]);
      if names[i] != [] && names[i] in parent {
        r := Upsert(r, names[i], parent[names[i]]);
        UpsertSnoc(sofar, names[i], parent[names[i]]);
        Regroup(before, Passed(parent, names[..i]), [(names[i], parent[names[i]])]);
      } else {
        assert Passed(parent, names[..i + 1]) == Passed(parent, names[..i]);
      }
    }
    assert names[..|names|] == names;
  }

  lemma NamedNext(values: seq<(string, string)>, i: nat)
    requires i < |values|
    ensures Named(values[..i + 1]) == Named(values[..i]) + if values[i].0 != [] then [values[i]] else []
  {
    assert values[..i + 1][..i] == values[..i];
  }

  method AddNamed(strings: seq<string>, values: seq<(string, string)>, ghost before: seq<(string, string)>)
    returns (r: seq<string>)
    requires strings == UpsertAll(before)
    ensures r == UpsertAll(before + Named(values))
  {
    r := strings;
    assert values[..0] == [] && before + Named([]) == before;
    for i := 0 to |values|
      invariant r == UpsertAll(before + Named(values[..i]))
    {
      NamedNext(values, i);
      ghost var sofar := before + Named(values[..i]);
      if values[i].0 != [] {
        r := Upsert(r, values[i].0, values[i].1);
        UpsertSnoc(sofar, values[i].0, values[i].1);
        Regroup(before, Named(values[..i]), [values[i]]);
      } else {
        assert Named(values[..i + 1]) == Named(values[..i]);
      }
    }
    assert values[..|values|] == values;
  }

  ghost predicate PlainInputs(allow: seq<string>, values: seq<(string, string)>) {
    (forall i :: 0 <= i < |allow| ==> PlainName(allow[i])) && PlainRequests(values)
  }

  /**
   The child's environment. `parent` is what getenv answers. Each name stands in the list once
   exactly if no insertion clashes, which names without '=' never do; as a map it then is the kept
   names of the parent, overridden by the passed-through ones, overridden by the explicit values.
   */
  method BuildSanitizedEnv(parent: Env, allow: seq<string>, values: seq<(string, string)>) returns (strings: seq<string>)
    ensures strings == UpsertAll(Requests(parent, allow, values))
    ensures Distinct(Names(strings)) <==> NeverClashes(Requests(parent, allow, values))
    ensures Distinct(Names(strings)) ==> Reads(strings, MapOf(Requests(parent, allow, values)))
    ensures PlainInputs(allow, values) ==> Distinct(Names(strings))
    ensures PlainInputs(allow, values) ==>
      Reads(strings, Inherited(parent, ["PATH", "HOME", "LANG", "TERM", "USER", "LOGNAME"]) + Inherited(parent, allow) + Explicit(values))
  {
    strings := AddPassed([], parent, Keep(), []);
    assert [] + Passed(parent, Keep()) == Passed(parent, Keep());
    strings := AddPassed(strings, parent, allow, Passed(parent, Keep()));
    strings := AddNamed(strings, values, Passed(parent, Keep()) + Passed(parent, allow));
    ghost var requests := Requests(parent, allow, values);
    DistinctExactly(requests);
    if NeverClashes(requests) { ReadsExactly(requests); }
    if PlainInputs(allow, values) { PlainInputsReadAsMap(parent, allow, values); }
  }

  // --- What the map is, for plain names ----------------------------------------------------------

  lemma {:induction false} MapOfAppend(a: seq<(string, string)>, b: seq<(string, string)>)
    ensures MapOf(a + b) == MapOf(a) + MapOf(b)
  {
    if b == [] {
      assert a + b == a;
    } else {
      MapOfAppend(a, b[..|b| - 1]);
      assert (a + b)[..|a + b| - 1] == a + b[..|b| - 1];
      var e := Entry(b[|b| - 1].0, b[|b| - 1].1);
      UpdateBehind(MapOf(a), MapOf(b[..|b| - 1]), NameOf(e), ValueOf(e));
    }
  }

  lemma UpdateBehind(m: Env, n: Env, name: string, value: string)
    ensures (m + n)[name := value] == m + n[name := value]
  {
  }

  lemma MapOfOne(name: string, value: string)
    requires PlainName(name)
    ensures MapOf([(name, value)]) == map[name := value]
  {
    EntryParts(name, value);
    assert [(name, value)][..0] == [];
  }

  lemma MapOfSnoc(requests: seq<(string, string)>, name: string, value: string)
    requires PlainName(name)
    ensures MapOf(requests + [(name, value)]) == MapOf(requests)[name := value]
    ensures PlainRequests(requests) ==> PlainRequests(requests + [(name, value)])
  {
    MapOfAppend(requests, [(name, value)]);
    MapOfOne(name, value);
  }

  lemma {:induction false} MapOfPassed(parent: Env, names: seq<string>)
    requires forall i :: 0 <= i < |names| ==> PlainName(names[i])
    ensures MapOf(Passed(parent, names)) == Inherited(parent, names) && PlainRequests(Passed(parent, names))
  {
    if names != [] {
      var init, name := names[..|names| - 1], names[|names| - 1];
      MapOfPassed(parent, init);
      InheritedSnoc(parent, names);
      if name != [] && name in parent {
        MapOfSnoc(Passed(parent, init), name, parent[name]);
      } else {
        assert Passed(parent, names) == Passed(parent, init);
      }
    }
  }

  lemma InheritedSnoc(parent: Env, names: seq<string>)
    requires names != []
    ensures var init, name := names[..|names| - 1], names[|names| - 1];
      Inherited(parent, names)
      == if name != [] && name in parent then Inherited(parent, init)[name := parent[name]] else Inherited(parent, init)
  {
    assert names == names[..|names| - 1] + [names[|names| - 1]];
  }

  lemma {:induction false} MapOfNamed(values: seq<(string, string)>)
    requires PlainRequests(values)
    ensures MapOf(Named(values)) == Explicit(values) && PlainRequests(Named(values))
  {
    if values != [] {
      var init, last := values[..|values| - 1], values[|values| - 1];
      assert PlainName(last.0);
      MapOfNamed(init);
      if last.0 != [] {
        MapOfSnoc(Named(init), last.0, last.1);
      } else {
        assert Named(values) == Named(init);
      }
    }
  }

  lemma KeptNamesArePlain()
    ensures forall i :: 0 <= i < |Keep()| ==> PlainName(Keep()[i])
  {
  }

  lemma PlainInputsReadAsMap(parent: Env, allow: seq<string>, values: seq<(string, string)>)
    requires PlainInputs(allow, values)
    ensures NeverClashes(Requests(parent, allow, values))
    ensures MapOf(Requests(parent, allow, values)) == Inherited(parent, Keep()) + Inherited(parent, allow) + Explicit(values)
  {
    KeptNamesArePlain();
    MapOfPassed(parent, Keep());
    MapOfPassed(parent, allow);
    MapOfNamed(values);
    MapOfAppend(Passed(parent, Keep()) + Passed(parent, allow), Named(values));
    MapOfAppend(Passed(parent, Keep()), Passed(parent, allow));
    PlainNamesNeverClash(Requests(parent, allow, values));
  }

  // --- Names with '=' ---------------------------------------------------------------------------

  /** One order of two explicit values gives one entry, the other gives two entries of the same name. */
  lemma OrderDecides()
    ensures UpsertAll([("A=B", "1"), ("A", "2")]) == ["A=2"] && NeverClashes([("A=B", "1"), ("A", "2")])
    ensures UpsertAll([("A", "2"), ("A=B", "1")]) == ["A=2", "A=B=1"] && !NeverClashes([("A", "2"), ("A=B", "1")])
    ensures Names(["A=2", "A=B=1"]) == ["A", "A"]
  {
    var x, y := ("A=B", "1"), ("A", "2");
    UpsertTwo(x, y);
    UpsertTwo(y, x);
    assert Entry("A=B", "1") == "A=B=1" && Entry("A", "2") == "A=2";
    assert Matches("A=B=1", "A");
    assert !Matches("A=2", "A=B") by { assert ("A=B" + "=")[2] == 'B' && "A=2"[2] == '2'; }
    EntryParts("A", "2");
    EntryParts("A", "B=1");
    assert "A=B=1" == Entry("A", "B=1");
    assert Names(["A=2"]) == ["A"] && Names(["A=2", "A=B=1"]) == ["A", "A"];
    DistinctExactly([x, y]);
    DistinctExactly([y, x]);
    assert !Distinct(["A", "A"]) by { assert ["A", "A"][0] == ["A", "A"][1]; }
  }

  lemma {:induction false} NothingPassed(names: seq<string>)
    ensures Passed(map[], names) == []
  {
    if names != [] { NothingPassed(names[..|names| - 1]); }
  }

  /** So the builder returns two entries named A, where the same values in the other order give one. */
  lemma BuilderRepeatsAName()
    ensures UpsertAll(Requests(map[], [], [("A=B", "1"), ("A", "2")])) == ["A=2"]
    ensures UpsertAll(Requests(map[], [], [("A", "2"), ("A=B", "1")])) == ["A=2", "A=B=1"]
  {
    OrderDecides();
    RequestsOfTwo(("A=B", "1"), ("A", "2"));
    RequestsOfTwo(("A", "2"), ("A=B", "1"));
  }

  lemma RequestsOfTwo(x: (string, string), y: (string, string))
    requires x.0 != [] && y.0 != []
    ensures Requests(map[], [], [x, y]) == [x, y]
  {
    NothingPassed(Keep());
    NothingPassed([]);
    assert [x, y][..1] == [x] && [x][..0] == [];
    assert Named([x]) == [x];
    assert [] + [] + [x, y] == [x, y];
  }

  lemma UpsertTwo(x: (string, string), y: (string, string))
    ensures UpsertAll([x, y]) == UpsertOf([Entry(x.0, x.1)], y.0, y.1)
    ensures UpsertOf([Entry(x.0, x.1)], y.0, y.1)
         == if Matches(Entry(x.0, x.1), y.0) then [Entry(y.0, y.1)] else [Entry(x.0, x.1), Entry(y.0, y.1)]
  {
    assert [x, y][..1] == [x] && [x][..0] == [];
    UpsertSnoc([], x.0, x.1);
    UpsertSnoc([x], y.0, y.1);
    assert UpsertAll([x]) == [Entry(x.0, x.1)] by { assert [] + [x] == [x]; }
    assert [x] + [y] == [x, y];
    assert [Entry(x.0, x.1)][1..] == [];
  }
}
