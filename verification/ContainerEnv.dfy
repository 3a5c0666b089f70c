/** The wire form of a container's environment: validated, sorted by name, one entry a variable. */
module ContainerEnv {
  import opened Wrappers

  datatype Variable = Variable(name: string, value: string)

  predicate NameStart(c: char) {
    'A' <= c <= 'Z' || 'a' <= c <= 'z' || c == '_'
  }

  predicate ValidName(s: string) {
    s != "" && NameStart(s[0]) && forall i :: 0 <= i < |s| ==> NameStart(s[i]) || '0' <= s[i] <= '9'
  }

  // ----- lexicographic order -----

  predicate Less(a: string, b: string) {
    b != [] && (a == [] || a[0] < b[0] || (a[0] == b[0] && Less(a[1..], b[1..])))
  }

  lemma {:induction false} LessIrreflexive(a: string)
    ensures !Less(a, a)
  {
    if a != [] {
      LessIrreflexive(a[1..]);
    }
  }

  lemma {:induction false} LessTransitive(a: string, b: string, c: string)
    requires Less(a, b) && Less(b, c)
    ensures Less(a, c)
  {
    if a != [] && a[0] == b[0] == c[0] {
      LessTransitive(a[1..], b[1..], c[1..]);
    }
  }

  lemma {:induction false} LessTotal(a: string, b: string)
    ensures Less(a, b) || a == b || Less(b, a)
  {
    if a != [] && b != [] && a[0] == b[0] {
      LessTotal(a[1..], b[1..]);
      assert a == [a[0]] + a[1..] && b == [b[0]] + b[1..];
    }
  }

  /** The order of a dictionary: at the first place where they differ the smaller has the smaller
      character, or it ends there. */
  lemma {:induction false} LessMeans(a: string, b: string)
    ensures Less(a, b) <==> exists k :: PartAt(a, b, k)
  {
    if a != [] && b != [] && a[0] == b[0] {
      LessMeans(a[1..], b[1..]);
      if k: nat :| PartAt(a, b, k) {
        assert k > 0 by { assert k == 0 ==> !(a[0] < b[0]); }
        PartLater(a, b, k - 1);
      }
      if k: nat :| PartAt(a[1..], b[1..], k) {
        PartLater(a, b, k);
      }
    } else {
      assert Less(a, b) ==> PartAt(a, b, 0);
    }
  }

  /** They agree up to a place, where the first ends or has the smaller character. */
  ghost predicate PartAt(a: string, b: string, k: nat) {
    k <= |a| && k < |b| && a[..k] == b[..k] && (k == |a| || a[k] < b[k])
  }

  lemma PartLater(a: string, b: string, k: nat)
    requires a != [] && b != [] && a[0] == b[0]
    ensures PartAt(a, b, k + 1) <==> PartAt(a[1..], b[1..], k)
  {
    if k + 1 <= |a| && k + 1 <= |b| {
      assert a[..k + 1] == [a[0]] + a[1..][..k];
      assert b[..k + 1] == [b[0]] + b[1..][..k];
      assert a[..k + 1] == b[..k + 1] <==> a[1..][..k] == b[1..][..k];
    }
  }

  /** Below something not above. */
  lemma LessNotAbove(a: string, b: string, c: string)
    requires Less(a, b) && !Less(c, b)
    ensures Less(a, c) && !Less(c, a)
  {
    LessTotal(b, c);
    if Less(b, c) {
      LessTransitive(a, b, c);
    }
    if Less(c, a) {
      LessTransitive(c, a, b);
    }
  }

  // ----- sorting -----

  ghost predicate Sorted(s: seq<Variable>) {
    forall i, j :: 0 <= i < j < |s| ==> !Less(s[j].name, s[i].name)
  }

  method Insert(s: seq<Variable>, v: Variable) returns (r: seq<Variable>)
    requires Sorted(s)
    ensures Sorted(r) && multiset(r) == multiset(s) + multiset{v}
  {
    var k := 0;
    while k < |s| && !Less(v.name, s[k].name)
      invariant 0 <= k <= |s|
      invariant forall i :: 0 <= i < k ==> !Less(v.name, s[i].name)
    {
      k := k + 1;
    }
    r := s[..k] + [v] + s[k..];
    assert s == s[..k] + s[k..];
    InsertKeepsSorted(s, v, k);
  }

  lemma InsertKeepsSorted(s: seq<Variable>, v: Variable, k: nat)
    requires Sorted(s) && k <= |s| && (k < |s| ==> Less(v.name, s[k].name))
    requires forall i :: 0 <= i < k ==> !Less(v.name, s[i].name)
    ensures Sorted(s[..k] + [v] + s[k..])
  {
    var r := s[..k] + [v] + s[k..];
    forall i | k <= i < |s| ensures !Less(s[i].name, v.name) {
      LessIrreflexive(s[k].name);
      LessNotAbove(v.name, s[k].name, s[i].name);
    }
    forall i, j | 0 <= i < j < |r| ensures !Less(r[j].name, r[i].name) {
      assert i < k ==> r[i] == s[i];
      assert i > k ==> r[i] == s[i - 1];
      assert j < k ==> r[j] == s[j];
      assert j > k ==> r[j] == s[j - 1];
    }
  }

  method SortByName(env: seq<Variable>) returns (s: seq<Variable>)
    ensures Sorted(s) && multiset(s) == multiset(env)
  {
    s := [];
    var i := 0;
    while i < |env|
      invariant 0 <= i <= |env| && Sorted(s) && multiset(s) == multiset(env[..i])
    {
      assert env[..i + 1] == env[..i] + [env[i]];
      s := Insert(s, env[i]);
      i := i + 1;
    }
    assert env[..|env|] == env;
  }

  // ----- entries -----

  /** Every name is a variable name and none occurs twice. */
  ghost predicate Acceptable(env: seq<Variable>) {
    && (forall i :: 0 <= i < |env| ==> ValidName(env[i].name))
    && (forall i, j :: 0 <= i < j < |env| ==> env[i].name != env[j].name)
  }

  function Entry(v: Variable): string {
    v.name + "=" + v.value
  }

  function Entries(s: seq<Variable>): seq<string> {
    seq(|s|, i requires 0 <= i < |s| => Entry(s[i]))
  }

  /** The same variables with strictly increasing names. */
  ghost predicate Arranged(env: seq<Variable>, s: seq<Variable>) {
    multiset(s) == multiset(env) && forall i, j :: 0 <= i < j < |s| ==> Less(s[i].name, s[j].name)
  }

  ghost predicate IsWireForm(env: seq<Variable>, out: seq<string>) {
    exists s :: Arranged(env, s) && out == Entries(s)
  }

  method BuildEnvEntries(env: seq<Variable>) returns (r: Option<seq<string>>)
    ensures r.Some? <==> Acceptable(env)
    ensures r.Some? ==> IsWireForm(env, r.value)
  {
    hide Less, ValidName, Sorted;
    var sorted := SortByName(env);
    var seen: set<string>, out: seq<string>, i := {}, [], 0;
    while i < |sorted|
      invariant 0 <= i <= |sorted| && out == Entries(sorted[..i])
      invariant seen == set j | 0 <= j < i :: sorted[j].name
      invariant forall j :: 0 <= j < i ==> ValidName(sorted[j].name)
      invariant forall j, k :: 0 <= j < k < i ==> sorted[j].name != sorted[k].name
    {
      if !ValidName(sorted[i].name) || sorted[i].name in seen {
        SameAcceptance(sorted, env);
        return None;
      }
      assert sorted[..i + 1] == sorted[..i] + [sorted[i]];
      seen, out := seen + {sorted[i].name}, out + [Entry(sorted[i])];
      i := i + 1;
    }
    assert sorted[..|sorted|] == sorted;
    SameAcceptance(sorted, env);
    StrictlySorted(sorted);
    assert Arranged(env, sorted);
    r := Some(out);
  }

  lemma StrictlySorted(s: seq<Variable>)
    requires Sorted(s) && forall j, k :: 0 <= j < k < |s| ==> s[j].name != s[k].name
    ensures forall i, j :: 0 <= i < j < |s| ==> Less(s[i].name, s[j].name)
  {
    forall i, j | 0 <= i < j < |s| ensures Less(s[i].name, s[j].name) {
      LessTotal(s[i].name, s[j].name);
    }
  }

  /** Acceptance does not depend on the order. */
  lemma SameAcceptance(s: seq<Variable>, t: seq<Variable>)
    requires multiset(s) == multiset(t)
    ensures Acceptable(s) <==> Acceptable(t)
  {
    hide ValidName;
    if Acceptable(s) {
      AcceptanceCarries(s, t);
    }
    if Acceptable(t) {
      AcceptanceCarries(t, s);
    }
  }

  lemma AcceptanceCarries(s: seq<Variable>, t: seq<Variable>)
    requires multiset(s) == multiset(t) && Acceptable(s)
    ensures Acceptable(t)
  {
    hide ValidName;
    forall i | 0 <= i < |t| ensures ValidName(t[i].name) {
      assert t[i] in multiset(t);
      assert t[i] in s;
    }
    forall i, j | 0 <= i < j < |t| ensures t[i].name != t[j].name {
      assert t[i] in multiset(s) && t[j] in multiset(s);
      TwoPlaces(t, i, j);
      if t[i] == t[j] {
        OncePerName(s, t[i]);
      }
      var k :| 0 <= k < |s| && s[k] == t[i];
      var l :| 0 <= l < |s| && s[l] == t[j];
      assert k != l;
    }
  }

  lemma TwoPlaces(t: seq<Variable>, i: nat, j: nat)
    requires i < j < |t|
    ensures t[i] == t[j] ==> multiset(t)[t[i]] >= 2
  {
    assert t == t[..i] + [t[i]] + t[i + 1..j] + [t[j]] + t[j + 1..];
  }

  lemma OncePerName(s: seq<Variable>, v: Variable)
    requires Acceptable(s)
    ensures multiset(s)[v] <= 1
  {
    hide ValidName;
    if k :| 0 <= k < |s| && s[k] == v {
      assert s == s[..k] + [v] + s[k + 1..];
      assert v !in s[..k] && v !in s[k + 1..];
    }
  }

  // ----- the wire form is a canonical form -----

  ghost predicate Increasing(s: seq<Variable>) {
    forall i, j :: 0 <= i < j < |s| ==> Less(s[i].name, s[j].name)
  }

  lemma HeadsAgree(s: seq<Variable>, t: seq<Variable>)
    requires Increasing(s) && Increasing(t) && multiset(s) == multiset(t) && s != []
    ensures t != [] && s[0] == t[0]
  {
    hide Less;
    assert s[0] in multiset(t);
    assert t[0] in multiset(s);
    var k :| 0 <= k < |t| && t[k] == s[0];
    var l :| 0 <= l < |s| && s[l] == t[0];
    NotBoth(s[0].name, t[0].name);
  }

  lemma NotBoth(a: string, b: string)
    ensures !(Less(a, b) && Less(b, a))
  {
    hide Less;
    if Less(a, b) {
      LessIrreflexive(a);
      LessIrreflexive(b);
      LessNotAbove(a, b, b);
    }
  }

  lemma TailMultiset(s: seq<Variable>)
    requires s != []
    ensures multiset(s[1..]) == multiset(s) - multiset{s[0]}
  {
    assert s == [s[0]] + s[1..];
  }

  lemma TailIncreases(s: seq<Variable>)
    requires s != [] && Increasing(s)
    ensures Increasing(s[1..])
  {
    hide Less;
  }

  lemma {:induction false} ArrangedOnce(s: seq<Variable>, t: seq<Variable>)
    requires Increasing(s) && Increasing(t) && multiset(s) == multiset(t)
    ensures s == t
  {
    hide Less, Increasing;
    if s != [] {
      HeadsAgree(s, t);
      TailMultiset(s);
      TailMultiset(t);
      TailIncreases(s);
      TailIncreases(t);
      ArrangedOnce(s[1..], t[1..]);
      assert s == [s[0]] + s[1..] && t == [t[0]] + t[1..];
    } else {
      assert |t| == |multiset(t)|;
    }
  }

  /** The order in which variables were bound never shows on the wire. */
  lemma OrderIsInvisible(a: seq<Variable>, b: seq<Variable>, x: seq<string>, y: seq<string>)
    requires multiset(a) == multiset(b) && IsWireForm(a, x) && IsWireForm(b, y)
    ensures x == y
  {
    hide Less;
    var s :| Arranged(a, s) && x == Entries(s);
    var t :| Arranged(b, t) && y == Entries(t);
    ArrangedOnce(s, t);
  }

  lemma EntryDecides(v: Variable, w: Variable)
    requires ValidName(v.name) && ValidName(w.name) && Entry(v) == Entry(w)
    ensures v == w
  {
    var x, y := Entry(v), Entry(w);
    assert x[|v.name|] == '=' && y[|w.name|] == '=';
    assert forall i :: 0 <= i < |v.name| ==> x[i] == v.name[i];
    assert forall i :: 0 <= i < |w.name| ==> y[i] == w.name[i];
    assert |v.name| == |w.name|;
    assert x[..|v.name|] == v.name && y[..|w.name|] == w.name;
    assert x[|v.name| + 1..] == v.value && y[|w.name| + 1..] == w.value;
  }

  /** And nothing but the order is lost: the wire form determines the variables. */
  lemma WireFormDecides(a: seq<Variable>, b: seq<Variable>, x: seq<string>)
    requires Acceptable(a) && Acceptable(b) && IsWireForm(a, x) && IsWireForm(b, x)
    ensures multiset(a) == multiset(b)
  {
    hide Less, ValidName, Entry;
    var s :| Arranged(a, s) && x == Entries(s);
    var t :| Arranged(b, t) && x == Entries(t);
    SameAcceptance(s, a);
    SameAcceptance(t, b);
    assert |s| == |Entries(s)| && |t| == |Entries(t)|;
    forall i | 0 <= i < |s| ensures s[i] == t[i] {
      assert Entries(s)[i] == Entry(s[i]) && Entries(t)[i] == Entry(t[i]);
      EntryDecides(s[i], t[i]);
    }
    assert s == t;
  }

  // ----- a reader of the environment -----

  /** The value of a variable: what follows its name and an equals sign, in the first such entry. */
  function Get(entries: seq<string>, name: string): Option<string> {
    if entries == [] then None
    else if name + "=" <= entries[0] then Some(entries[0][|name| + 1..])
    else Get(entries[1..], name)
  }

  lemma EntryOf(v: Variable, name: string)
    requires ValidName(v.name) && ValidName(name)
    ensures name + "=" <= Entry(v) <==> name == v.name
    ensures name == v.name ==> Entry(v)[|name| + 1..] == v.value
  {
    var e := Entry(v);
    assert e[|v.name|] == '=' && e[..|v.name|] == v.name;
    if name + "=" <= e {
      assert (name + "=")[|name|] == '=' && e[|name|] == '=' && e[..|name|] == name;
    }
  }

  lemma {:induction false} GetFrom(s: seq<Variable>, name: string)
    requires Acceptable(s) && ValidName(name)
    ensures forall value :: Get(Entries(s), name) == Some(value) <==> Variable(name, value) in s
  {
    hide ValidName, Entry;
    if s != [] {
      GetFrom(s[1..], name);
      EntryOf(s[0], name);
      assert Entries(s)[0] == Entry(s[0]) && Entries(s)[1..] == Entries(s[1..]);
      assert s == [s[0]] + s[1..];
    }
  }

  /** A process finds in its environment exactly the variables that were bound, with their values. */
  lemma EveryVariableIsFound(env: seq<Variable>, entries: seq<string>, name: string, value: string)
    requires Acceptable(env) && IsWireForm(env, entries) && ValidName(name)
    ensures Get(entries, name) == Some(value) <==> Variable(name, value) in env
  {
    hide Less, ValidName;
    var s :| Arranged(env, s) && entries == Entries(s);
    SameAcceptance(s, env);
    GetFrom(s, name);
    assert Variable(name, value) in multiset(s) <==> Variable(name, value) in multiset(env);
  }
}
