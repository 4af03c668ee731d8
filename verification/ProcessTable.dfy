/** Which processes belong to a service, found from one snapshot of every process there is. */
module ProcessTables {
  /** A process id has the width of a C int. */
  type Pid = x: int | -0x8000_0000 <= x < 0x8000_0000

  datatype ProcessEntry = ProcessEntry(pid: Pid, parentPid: Pid, session: Pid, zombie: bool)

  /** Entries by their process id. */
  type Entries = e: map<Pid, ProcessEntry> | forall p :: p in e ==> e[p].pid == p witness map[]

  predicate Live(e: Entries, pid: Pid) {
    pid in e && !e[pid].zombie
  }

  function LivePids(e: Entries): set<Pid> {
    set p | p in e && !e[p].zombie
  }

  /** What is a member from the start: the leader and its session. */
  predicate IsSeed(e: Entries, leader: Pid, pid: Pid) {
    Live(e, pid) && (pid == leader || e[pid].session == leader)
  }

  function Seeds(e: Entries, leader: Pid): set<Pid> {
    set p | p in e && IsSeed(e, leader, p)
  }

  function Children(e: Entries, pid: Pid): set<Pid> {
    set c | c in e && Live(e, c) && e[c].parentPid == pid
  }

  /** The leader, its session and all descendants are inside. */
  predicate Encloses(e: Entries, leader: Pid, s: set<Pid>) {
    Seeds(e, leader) <= s && forall p :: p in s ==> Children(e, p) <= s
  }

  /** The least set of live processes with the leader and its session that is closed under children. */
  ghost predicate IsFamily(e: Entries, leader: Pid, s: set<Pid>) {
    s <= LivePids(e) && Encloses(e, leader, s) && forall t :: Encloses(e, leader, t) ==> s <= t
  }

  predicate Ascending(s: seq<Pid>) {
    forall i, j :: 0 <= i < j < |s| ==> s[i] < s[j]
  }

  lemma Smallest(s: set<Pid>) returns (low: Pid)
    requires s != {}
    ensures low in s && forall x :: x in s ==> low <= x
    decreases |s|
  {
    var x :| x in s;
    if s == {x} {
      low := x;
    } else {
      var rest := Smallest(s - {x});
      low := if rest < x then rest else x;
      forall y | y in s
        ensures low <= y
      {
        assert y == x || y in s - {x};
      }
    }
  }

  function ToSet(s: seq<Pid>): set<Pid> {
    set x | x in s
  }

  lemma OneMore(s: seq<Pid>, x: Pid)
    ensures ToSet(s + [x]) == ToSet(s) + {x}
  {}

  /** An ordered set read from front to back. */
  method InOrder(s: set<Pid>) returns (r: seq<Pid>)
    ensures Ascending(r) && ToSet(r) == s
  {
    r := [];
    var rest := s;
    while rest != {}
      invariant rest <= s && Ascending(r)
      invariant forall i, x :: 0 <= i < |r| && x in rest ==> r[i] < x
      invariant s == rest + ToSet(r)
      decreases rest
    {
      ghost var low := Smallest(rest);
      var next :| next in rest && forall x :: x in rest ==> next <= x;
      OneMore(r, next);
      r := r + [next];
      rest := rest - {next};
    }
  }

  // ----- the search

  predicate ChildLists(e: Entries, children: map<Pid, seq<Pid>>, seen: set<Pid>) {
    && (forall p :: p in children ==> forall c :: c in children[p] ==> c in seen && c in Children(e, p))
    && (forall c :: c in seen && Live(e, c) ==> e[c].parentPid in children && c in children[e[c].parentPid])
  }

  /**
   The search in progress: everything found or still to be looked at is a member of every set
   that encloses the family, and what was found has its children found or still to be looked at.
   */
  ghost predicate Searching(e: Entries, leader: Pid, found: set<Pid>, pending: set<Pid>) {
    && found + pending <= LivePids(e)
    && (forall t :: Encloses(e, leader, t) ==> found + pending <= t)
    && Seeds(e, leader) <= found + pending
    && (forall p :: p in found - pending ==> Children(e, p) <= found + pending)
  }

  /** How many entries still to be looked at were found already. */
  function Repeats(found: set<Pid>, pending: seq<Pid>): nat {
    if pending == [] then 0
    else Repeats(found, pending[..|pending| - 1]) + if pending[|pending| - 1] in found then 1 else 0
  }

  lemma {:induction false} PushNew(found: set<Pid>, pending: seq<Pid>, more: seq<Pid>)
    requires forall x :: x in more ==> x !in found
    ensures Repeats(found, pending + more) == Repeats(found, pending)
    decreases |more|
  {
    if more == [] {
      assert pending + more == pending;
    } else {
      var last := more[|more| - 1];
      assert last in more;
      assert (pending + more)[..|pending + more| - 1] == pending + more[..|more| - 1];
      PushNew(found, pending, more[..|more| - 1]);
    }
  }

  /** The children that were not found yet are put on top. */
  ghost predicate Pushed(kids: seq<Pid>, found: set<Pid>, pending: seq<Pid>, more: seq<Pid>) {
    && pending <= more && Repeats(found, more) == Repeats(found, pending)
    && (forall x :: x in more[|pending|..] ==> x in kids)
    && (forall x :: x in kids && x !in found ==> x in more)
  }

  class ProcessTable {
    var entries: Entries

    constructor ()
      ensures entries == map[]
    {
      entries := map[];
    }

    method Add(entry: ProcessEntry)
      modifies this
      ensures entries == old(entries)[entry.pid := entry]
    {
      entries := entries[entry.pid := entry];
    }

    /** The processes in the leader's session, and every live process by its parent. */
    method Sort(leader: Pid) returns (children: map<Pid, seq<Pid>>, found: set<Pid>)
      ensures ChildLists(entries, children, entries.Keys)
      ensures found == set p | p in entries && Live(entries, p) && entries[p].session == leader
    {
      children, found := map[], {};
      var rest := entries.Keys;
      while rest != {}
        invariant rest <= entries.Keys
        invariant ChildLists(entries, children, entries.Keys - rest)
        invariant found == set p | p in entries.Keys - rest && Live(entries, p) && entries[p].session == leader
        decreases rest
      {
        var pid :| pid in rest;
        var entry := entries[pid];
        if !entry.zombie {
          var siblings := if entry.parentPid in children then children[entry.parentPid] else [];
          children := children[entry.parentPid := siblings + [pid]];
          if entry.session == leader {
            found := found + {pid};
          }
        }
        rest := rest - {pid};
      }
    }

    method PushUnfound(kids: seq<Pid>, found: set<Pid>, pending: seq<Pid>) returns (more: seq<Pid>)
      ensures Pushed(kids, found, pending, more)
    {
      more := pending;
      for i := 0 to |kids|
        invariant pending <= more
        invariant forall x :: x in more[|pending|..] ==> x !in found && x in kids
        invariant forall k :: 0 <= k < i && kids[k] !in found ==> kids[k] in more
      {
        if kids[i] !in found {
          more := more + [kids[i]];
        }
      }
      PushNew(found, pending, more[|pending|..]);
      assert more == pending + more[|pending|..];
    }

    /** The members of the leader's family in ascending order; on any table, parent cycles included. */
    method Members(leader: Pid) returns (members: seq<Pid>)
      ensures Ascending(members)
      ensures leader <= 0 ==> members == []
      ensures leader > 0 ==> IsFamily(entries, leader, ToSet(members))
    {
      hide Searching, ChildLists, IsFamily, LivePids, Repeats;
      if leader <= 0 {
        return [];
      }
      var children, found := Sort(leader);
      var pending: seq<Pid> := [];
      if leader in entries && !entries[leader].zombie {
        pending := pending + [leader];
      }
      var session := InOrder(found);
      pending := pending + session;
      SearchBegins(entries, leader, found, pending);
      while pending != []
        invariant Searching(entries, leader, found, ToSet(pending))
        decreases LivePids(entries) - found, Repeats(found, pending)
      {
        var pid := pending[|pending| - 1];
        ghost var before, foundBefore := pending, found;
        pending := pending[..|pending| - 1];
        found := found + {pid};
        if pid in children {
          pending := PushUnfound(children[pid], found, pending);
        }
        LookedAt(entries, leader, children, foundBefore, before, pending);
        NearerTheEnd(entries, leader, foundBefore, before, pending);
      }
      assert ToSet(pending) == {};
      FoundIsFamily(entries, leader, found);
      members := InOrder(found);
    }
  }

  lemma SearchBegins(e: Entries, leader: Pid, found: set<Pid>, pending: seq<Pid>)
    requires found == set p | p in e && Live(e, p) && e[p].session == leader
    requires forall p :: p in pending <==> p in found || (p == leader && Live(e, leader))
    ensures Searching(e, leader, found, ToSet(pending))
  {
    assert found + ToSet(pending) == Seeds(e, leader);
  }

  /** Looking at one entry: it is found, and its children are found or still to be looked at. */
  lemma StepKeeps(e: Entries, leader: Pid, found: set<Pid>, left: set<Pid>, pid: Pid, more: set<Pid>)
    requires Searching(e, leader, found, left + {pid})
    requires more <= Children(e, pid) <= found + {pid} + left + more
    ensures Searching(e, leader, found + {pid}, left + more)
  {
    var all := found + {pid} + (left + more);
    forall t | Encloses(e, leader, t)
      ensures all <= t
    {
      assert Children(e, pid) <= t;
    }
    forall p | p in found + {pid} - (left + more)
      ensures Children(e, p) <= all
    {
      if p != pid {
        assert p in found - (left + {pid});
      }
    }
  }

  lemma ListsAreChildren(e: Entries, children: map<Pid, seq<Pid>>, pid: Pid)
    requires ChildLists(e, children, e.Keys)
    ensures Children(e, pid) == if pid in children then ToSet(children[pid]) else {}
  {}

  /** One round of the loop keeps the search in order. */
  lemma LookedAt(e: Entries, leader: Pid, children: map<Pid, seq<Pid>>, found: set<Pid>, before: seq<Pid>,
                 pending: seq<Pid>)
    requires before != [] && Searching(e, leader, found, ToSet(before)) && ChildLists(e, children, e.Keys)
    requires var pid, left := before[|before| - 1], before[..|before| - 1];
             if pid in children then Pushed(children[pid], found + {pid}, left, pending) else pending == left
    ensures Searching(e, leader, found + {before[|before| - 1]}, ToSet(pending))
  {
    hide ChildLists, Children, Searching, Repeats;
    var pid, left := before[|before| - 1], before[..|before| - 1];
    var more := if pid in children then ToSet(pending[|left|..]) else {};
    ListsAreChildren(e, children, pid);
    assert before == left + [pid];
    assert pending == left + pending[|left|..];
    assert ToSet(before) == ToSet(left) + {pid} && ToSet(pending) == ToSet(left) + more;
    StepKeeps(e, leader, found, ToSet(left), pid, more);
  }

  /** And it brings the end nearer: something new is found, or one entry found before is gone. */
  lemma NearerTheEnd(e: Entries, leader: Pid, found: set<Pid>, before: seq<Pid>, pending: seq<Pid>)
    requires before != [] && Searching(e, leader, found, ToSet(before))
    requires var pid, left := before[|before| - 1], before[..|before| - 1];
             Repeats(found + {pid}, pending) == Repeats(found + {pid}, left)
    ensures var pid := before[|before| - 1];
            if pid in found then found + {pid} == found && Repeats(found, pending) < Repeats(found, before)
            else LivePids(e) - (found + {pid}) < LivePids(e) - found
  {
    hide Encloses, Children, Seeds;
    var pid := before[|before| - 1];
    if pid in found {
      assert found + {pid} == found;
    } else {
      assert pid in ToSet(before) && pid in LivePids(e) - found;
    }
  }

  lemma FoundIsFamily(e: Entries, leader: Pid, found: set<Pid>)
    requires Searching(e, leader, found, {})
    ensures IsFamily(e, leader, found)
  {}
}
