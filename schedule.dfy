/**
 * The population as the scheduler keeps it: an insertion-ordered dictionary
 * from agent id to agent, modelled as a sequence of agents with pairwise
 * distinct ids. Adding an agent appends it; removing one deletes its entry.
 */
module Schedule {
  import opened Agents

  ghost predicate DistinctIds(s: seq<Agent>) {
    forall i, j :: 0 <= i < j < |s| ==> s[i].id != s[j].id
  }

  ghost predicate DistinctKeys(s: seq<nat>) {
    forall i, j :: 0 <= i < j < |s| ==> s[i] != s[j]
  }

  /** The list of keys, in insertion order. */
  function Ids(s: seq<Agent>): (r: seq<nat>)
    ensures |r| == |s|
    ensures forall i :: 0 <= i < |s| ==> r[i] == s[i].id
  {
    if s == [] then [] else Ids(s[..|s| - 1]) + [s[|s| - 1].id]
  }

  lemma IdsDistinct(s: seq<Agent>)
    requires DistinctIds(s)
    ensures DistinctKeys(Ids(s))
  {
  }

  /** A key occurs among the keys exactly when some agent carries it. */
  lemma IdsMembers(s: seq<Agent>, id: nat)
    ensures id in Ids(s) <==> exists x :: x in s && x.id == id
  {
    if id in Ids(s) {
      var i :| 0 <= i < |s| && Ids(s)[i] == id;
      assert s[i] in s;
    }
  }

  /** Ids are keys: two members with the same id are the same agent. */
  lemma SameId(s: seq<Agent>, x: Agent, y: Agent)
    requires DistinctIds(s) && x in s && y in s && x.id == y.id
    ensures x == y
  {
    var i :| 0 <= i < |s| && s[i] == x;
    var j :| 0 <= j < |s| && s[j] == y;
    assert i == j;
  }

  /**
   * Dictionary lookup: the position of the agent with key `id`, or -1 when
   * there is none.
   */
  function IndexOf(s: seq<Agent>, id: nat): (k: int)
    ensures -1 <= k < |s|
    ensures k >= 0 ==> s[k].id == id
    ensures k < 0 <==> forall j :: 0 <= j < |s| ==> s[j].id != id
  {
    if s == [] then -1
    else if s[0].id == id then 0
    else
      var r := IndexOf(s[1..], id);
      if r < 0 then -1 else r + 1
  }

  /** With distinct ids, looking up the key of a member finds that member. */
  lemma LookupFinds(s: seq<Agent>, x: Agent)
    requires DistinctIds(s) && x in s
    ensures 0 <= IndexOf(s, x.id) < |s| && s[IndexOf(s, x.id)] == x
  {
    var j :| 0 <= j < |s| && s[j] == x;
    assert forall i :: 0 <= i < |s| && i != j ==> s[i].id != x.id by {
      forall i | 0 <= i < |s| && i != j ensures s[i].id != x.id {
        if i < j { assert s[i].id != s[j].id; } else { assert s[j].id != s[i].id; }
      }
    }
  }

  /** schedule.remove(s[k]) followed by schedule.add(p). */
  function Replace(s: seq<Agent>, k: nat, p: Agent): (r: seq<Agent>)
    requires k < |s|
    ensures |r| == |s| && r[|s| - 1] == p
    ensures forall x :: x in r ==> x in s || x == p
    ensures forall x :: x in s && x != s[k] ==> x in r
  {
    var r := s[..k] + s[k + 1..] + [p];
    forall x | x in s && x != s[k] ensures x in r {
      var j :| 0 <= j < |s| && s[j] == x;
      if j < k { assert r[j] == x; } else { assert r[j - 1] == x; }
    }
    r
  }

  /** Replacing by an agent with a fresh key keeps the keys distinct and drops the old entry. */
  lemma ReplaceFresh(s: seq<Agent>, k: nat, p: Agent)
    requires k < |s| && DistinctIds(s)
    requires forall x :: x in s ==> x.id < p.id
    ensures DistinctIds(Replace(s, k, p))
    ensures s[k] !in Replace(s, k, p)
    ensures forall x :: x in Replace(s, k, p) ==> x == p || (x in s && x != s[k])
  {
    var r := Replace(s, k, p);
    assert r == s[..k] + s[k + 1..] + [p];
    forall i, j | 0 <= i < j < |r| ensures r[i].id != r[j].id {
      if j == |r| - 1 {
        assert r[i] in s;
      } else {
        var i', j' := if i < k then i else i + 1, if j < k then j else j + 1;
        assert r[i] == s[i'] && r[j] == s[j'] && i' < j';
      }
    }
    forall i | 0 <= i < |r| ensures r[i].id != s[k].id {
      if i < |r| - 1 {
        var i' := if i < k then i else i + 1;
        assert r[i] == s[i'];
        if i' < k { assert s[i'].id != s[k].id; } else { assert s[k].id != s[i'].id; }
      } else {
        assert s[k] in s;
      }
    }
  }

  /** Updating an agent in place keeps the other members. */
  lemma UpdateKeeps(s: seq<Agent>, k: nat, v: Agent, x: Agent)
    requires k < |s| && x in s && x != s[k]
    ensures x in s[k := v]
  {
    var j :| 0 <= j < |s| && s[j] == x;
    assert s[k := v][j] == x;
  }

  /** An in-place update that keeps the key keeps the keys distinct and adds only the new value. */
  lemma UpdateSameKey(s: seq<Agent>, k: nat, v: Agent)
    requires k < |s| && DistinctIds(s) && v.id == s[k].id
    ensures DistinctIds(s[k := v])
    ensures forall x :: x in s[k := v] ==> x == v || (x in s && x != s[k])
  {
    forall x | x in s[k := v] ensures x == v || (x in s && x != s[k]) {
      var j :| 0 <= j < |s| && s[k := v][j] == x;
      if j != k {
        assert s[j] == x;
        if j < k { assert s[j].id != s[k].id; } else { assert s[k].id != s[j].id; }
      }
    }
  }

  /** `t` holds what `s` holds with `o` exchanged for `a`. */
  ghost predicate Swapped(s: seq<Agent>, t: seq<Agent>, o: Agent, a: Agent) {
    forall x :: x in t <==> x == a || (x in s && x != o)
  }

  lemma ReplaceSwaps(s: seq<Agent>, k: nat, p: Agent)
    requires k < |s| && DistinctIds(s)
    requires forall x :: x in s ==> x.id < p.id
    ensures Swapped(s, Replace(s, k, p), s[k], p)
  {
    ReplaceFresh(s, k, p);
  }

  lemma UpdateSwaps(s: seq<Agent>, k: nat, v: Agent)
    requires k < |s| && DistinctIds(s) && v.id == s[k].id
    ensures Swapped(s, s[k := v], s[k], v)
  {
    UpdateSameKey(s, k, v);
    assert s[k := v][k] == v;
    forall x | x in s && x != s[k] ensures x in s[k := v] {
      UpdateKeeps(s, k, v, x);
    }
  }

  /** The agents that are Susceptible, in schedule order. */
  function Susceptibles(s: seq<Agent>): (r: seq<Agent>)
    ensures forall x :: x in r <==> x in s && x.health.Susceptible?
  {
    if s == [] then []
    else
      var init := Susceptibles(s[..|s| - 1]);
      var last := s[|s| - 1];
      assert forall x :: x in s <==> x in s[..|s| - 1] || x == last;
      if last.health.Susceptible? then init + [last] else init
  }

  lemma {:induction false} SusceptiblesDistinct(s: seq<Agent>)
    requires DistinctIds(s)
    ensures DistinctIds(Susceptibles(s))
  {
    if s != [] {
      var init := s[..|s| - 1];
      var last := s[|s| - 1];
      SusceptiblesDistinct(init);
      if last.health.Susceptible? {
        var r := Susceptibles(s);
        assert r == Susceptibles(init) + [last];
        forall x | x in Susceptibles(init) ensures x.id != last.id {
          var j :| 0 <= j < |init| && init[j] == x;
          assert s[j] == x;
        }
        forall i, j | 0 <= i < j < |r| ensures r[i].id != r[j].id {
          if j == |r| - 1 {
            assert r[i] in Susceptibles(init);
          }
        }
      }
    }
  }
}
