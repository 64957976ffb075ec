/**
 A block's emission log: the instructions appended to all clones of one block, in
 one order. Each core's clone is the log restricted to that core.
 */
module Projection {
  import opened Source
  import opened Target

  datatype Entry = Entry(part: Part, inst: TInst)

  function Project(log: seq<Entry>, p: Part): seq<TInst> {
    if log == [] then []
    else
      var rest := Project(log[..|log| - 1], p);
      if log[|log| - 1].part == p then rest + [log[|log| - 1].inst] else rest
  }

  /** Where in the log the core's instruction number `i` stands. */
  function Locate(log: seq<Entry>, p: Part, i: nat): nat
    requires i < |Project(log, p)|
  {
    var n := |log| - 1;
    if log[n].part == p && i == |Project(log[..n], p)| then n else Locate(log[..n], p, i)
  }

  lemma ProjectAppend(log: seq<Entry>, e: Entry, p: Part)
    ensures Project(log + [e], p) == Project(log, p) + (if e.part == p then [e.inst] else [])
  {
    assert (log + [e])[..|log|] == log;
  }

  lemma {:induction false} LocateSpec(log: seq<Entry>, p: Part, i: nat)
    requires i < |Project(log, p)|
    ensures var m := Locate(log, p, i);
      m < |log| && log[m] == Entry(p, Project(log, p)[i]) && Project(log[..m], p) == Project(log, p)[..i]
  {
    var n := |log| - 1;
    if !(log[n].part == p && i == |Project(log[..n], p)|) {
      LocateSpec(log[..n], p, i);
      assert log[..n][..Locate(log[..n], p, i)] == log[..Locate(log[..n], p, i)];
    }
  }

  lemma {:induction false} LocateOrder(log: seq<Entry>, p: Part, i: nat, j: nat)
    requires i < j < |Project(log, p)|
    ensures Locate(log, p, i) < Locate(log, p, j)
  {
    var n := |log| - 1;
    if log[n].part == p && j == |Project(log[..n], p)| {
      LocateSpec(log[..n], p, i);
    } else {
      LocateOrder(log[..n], p, i, j);
    }
  }

  // ---------- What a stretch of code contains ----------

  function Clones(code: seq<TInst>): set<Id> {
    if code == [] then {}
    else
      var x := code[|code| - 1];
      Clones(code[..|code| - 1]) + (if x.Clone? then {x.id} else {})
  }

  /** The instructions cloned, in order and as often as they are. */
  function ClonedIds(code: seq<TInst>): seq<Id> {
    if code == [] then []
    else
      var x := code[|code| - 1];
      ClonedIds(code[..|code| - 1]) + (if x.Clone? then [x.id] else [])
  }

  function Sends(code: seq<TInst>): set<nat> {
    if code == [] then {}
    else
      var x := code[|code| - 1];
      Sends(code[..|code| - 1]) + (if x.Send? then {x.chan} else {})
  }

  function Receives(code: seq<TInst>): set<nat> {
    if code == [] then {}
    else
      var x := code[|code| - 1];
      Receives(code[..|code| - 1]) + (if x.Receive? then {x.chan} else {})
  }

  function MemClones(code: seq<TInst>): nat {
    if code == [] then 0
    else
      var x := code[|code| - 1];
      MemClones(code[..|code| - 1]) + (if x.Clone? && x.mem then 1 else 0)
  }

  function Returns(code: seq<TInst>): nat {
    if code == [] then 0
    else Returns(code[..|code| - 1]) + (if code[|code| - 1].SendReturn? then 1 else 0)
  }

  /** The next instruction of a code prefix, and what it adds. */
  lemma Extend(code: seq<TInst>, i: nat)
    requires i < |code|
    ensures code[..i + 1] == code[..i] + [code[i]]
    ensures Clones(code[..i + 1]) == Clones(code[..i]) + (if code[i].Clone? then {code[i].id} else {})
    ensures Sends(code[..i + 1]) == Sends(code[..i]) + (if code[i].Send? then {code[i].chan} else {})
    ensures Receives(code[..i + 1]) == Receives(code[..i]) + (if code[i].Receive? then {code[i].chan} else {})
    ensures MemClones(code[..i + 1]) == MemClones(code[..i]) + (if code[i].Clone? && code[i].mem then 1 else 0)
    ensures Returns(code[..i + 1]) == Returns(code[..i]) + (if code[i].SendReturn? then 1 else 0)
  {
    assert code[..i + 1][..i] == code[..i];
  }

  lemma AppendOne(code: seq<TInst>, x: TInst)
    ensures Clones(code + [x]) == Clones(code) + (if x.Clone? then {x.id} else {})
    ensures ClonedIds(code + [x]) == ClonedIds(code) + (if x.Clone? then [x.id] else [])
    ensures Sends(code + [x]) == Sends(code) + (if x.Send? then {x.chan} else {})
    ensures Receives(code + [x]) == Receives(code) + (if x.Receive? then {x.chan} else {})
    ensures MemClones(code + [x]) == MemClones(code) + (if x.Clone? && x.mem then 1 else 0)
    ensures Returns(code + [x]) == Returns(code) + (if x.SendReturn? then 1 else 0)
  {
    assert (code + [x])[..|code|] == code;
  }

  lemma {:induction false} PrefixGrows(code: seq<TInst>, i: nat, j: nat)
    requires i <= j <= |code|
    ensures Clones(code[..i]) <= Clones(code[..j])
    ensures Sends(code[..i]) <= Sends(code[..j])
    ensures Receives(code[..i]) <= Receives(code[..j])
    ensures MemClones(code[..i]) <= MemClones(code[..j])
    ensures Returns(code[..i]) <= Returns(code[..j])
  {
    if i < j {
      Extend(code, j - 1);
      PrefixGrows(code, i, j - 1);
    }
  }

  lemma {:induction false} SendIndex(code: seq<TInst>, c: nat) returns (i: nat)
    requires c in Sends(code)
    ensures i < |code| && code[i].Send? && code[i].chan == c
  {
    var n := |code| - 1;
    if code[n].Send? && code[n].chan == c {
      i := n;
    } else {
      i := SendIndex(code[..n], c);
    }
  }

  lemma {:induction false} ReceiveIndex(code: seq<TInst>, c: nat) returns (i: nat)
    requires c in Receives(code)
    ensures i < |code| && code[i].Receive? && code[i].chan == c
  {
    var n := |code| - 1;
    if code[n].Receive? && code[n].chan == c {
      i := n;
    } else {
      i := ReceiveIndex(code[..n], c);
    }
  }

  lemma {:induction false} CloneIndex(code: seq<TInst>, id: Id) returns (i: nat)
    requires id in Clones(code)
    ensures i < |code| && code[i].Clone? && code[i].id == id
  {
    var n := |code| - 1;
    if code[n].Clone? && code[n].id == id {
      i := n;
    } else {
      i := CloneIndex(code[..n], id);
    }
  }

  lemma {:induction false} Contains(code: seq<TInst>, i: nat)
    requires i < |code|
    ensures code[i].Send? ==> code[i].chan in Sends(code)
    ensures code[i].Receive? ==> code[i].chan in Receives(code)
    ensures code[i].Clone? ==> code[i].id in Clones(code)
  {
    Extend(code, i);
    PrefixGrows(code, i + 1, |code|);
    assert code[..|code|] == code;
  }
}
