/**
 `smartptr`: handles on an object share a stub that counts them, and the last one that goes
 takes the object with it.

 All handles and stubs that exist are passed along as ghosts, so that what holds of all of
 them can be said of every operation.
 */
module SmartPtr {

  /** Objects are numbered; this is the null pointer. */
  const NULL: nat := 0

  class Stub {
    var count: nat
    var obj: nat
    /** The object it was made for. */
    ghost const given: nat
    /** Not yet deleted. */
    ghost var live: bool
    /** Whether a handle gave the object away. */
    ghost var detached: bool
    /** How often the object was deallocated. */
    ghost var dealloc: nat

    constructor (obj: nat)
      ensures count == 1 && this.obj == obj && given == obj && live && !detached && dealloc == 0
    {
      count := 1;
      this.obj := obj;
      given := obj;
      live := true;
      detached := false;
      dealloc := 0;
    }
  }

  ghost function On(handles: set<Handle>, stub: Stub): set<Handle>
    reads handles
  {
    set h | h in handles && h.pObj == stub
  }

  /** The object of a stub is deallocated once when the stub goes, unless it was given away. */
  ghost predicate Disposed(stub: Stub)
    reads stub
  {
    && stub.obj == (if stub.detached then NULL else stub.given)
    && stub.dealloc == (if stub.live || stub.detached || stub.given == NULL then 0 else 1)
  }

  /** A stub counts the handles on it, and one more if a handle is about to be put on it. */
  ghost predicate Counts(handles: set<Handle>, stub: Stub, owed: Stub?)
    reads handles, stub
  {
    stub.live ==> 0 < stub.count == |On(handles, stub)| + if stub == owed then 1 else 0
  }

  ghost predicate Counted(handles: set<Handle>, stubs: set<Stub>, owed: Stub?)
    reads handles, stubs
  {
    && (forall stub :: stub in stubs ==> Counts(handles, stub, owed) && Disposed(stub))
    && (forall h :: h in handles && h.pObj != null ==> h.pObj in stubs && h.pObj.live)
    && (owed != null ==> owed in stubs && owed.live)
  }

  class Handle {
    var pObj: Stub?

    /** One more on a stub. */
    static method Ref(stub: Stub?, ghost handles: set<Handle>, ghost stubs: set<Stub>)
      requires Counted(handles, stubs, null) && (stub != null ==> stub in stubs && stub.live)
      modifies if stub == null then {} else {stub}`count
      ensures Counted(handles, stubs, stub)
    {
      if stub == null {
        return;
      }
      stub.count := stub.count + 1;
      assert forall s :: s in stubs ==> On(handles, s) == old(On(handles, s));
    }

    /** One less on the stub of this handle, which is off it then; the last takes the object with it. */
    method Deref(ghost handles: set<Handle>, ghost stubs: set<Stub>, ghost owed: Stub?)
      requires this in handles && Counted(handles, stubs, owed)
      modifies this, if pObj == null then {} else {pObj}
      ensures pObj == null && Counted(handles, stubs, owed)
      ensures old(pObj) != null ==>
                (old(pObj).live <==> old(pObj.count) > 1) && old(pObj).detached == old(pObj.detached)
    {
      ghost var was := pObj;
      if pObj != null {
        OneLess(handles, pObj);
        if pObj.count != 0 {
          pObj.count := pObj.count - 1;
          if pObj.count == 0 {
            DeallocRef(pObj);
          }
        }
      }
      pObj := null;
      assert forall s :: s in stubs && s != was ==> On(handles, s) == old(On(handles, s));
      if was != null {
        assert On(handles, was) == old(On(handles, was)) - {this};
        if !was.live {
          assert On(handles, was) == {};
          assert forall h :: h in handles && h != this ==> (h.pObj == was ==> h in On(handles, was));
        }
      }
    }

    lemma OneLess(handles: set<Handle>, stub: Stub)
      requires this in handles && pObj == stub
      ensures this in On(handles, stub) && |On(handles, stub) - {this}| == |On(handles, stub)| - 1
    {
    }

    /** Deallocate the object, if there is one, and delete the stub. */
    static method DeallocRef(stub: Stub)
      requires stub.count == 0
      modifies stub`live, stub`dealloc
      ensures !stub.live && stub.dealloc == old(stub.dealloc) + if stub.obj != NULL then 1 else 0
    {
      if stub.obj != NULL {
        stub.dealloc := stub.dealloc + 1;
      }
      stub.live := false;
    }

    /** Put a handle that is on none on the stub that is already counted for it. */
    method Settle(stub: Stub?, ghost handles: set<Handle>, ghost stubs: set<Stub>)
      requires this in handles && pObj == null && Counted(handles, stubs, stub)
      modifies `pObj
      ensures pObj == stub && Counted(handles, stubs, null)
    {
      pObj := stub;
      assert forall s :: s in stubs && s != stub ==> On(handles, s) == old(On(handles, s));
      if stub != null {
        assert On(handles, stub) == old(On(handles, stub)) + {this};
      }
    }

    /** On no object. */
    constructor Null(ghost handles: set<Handle>, ghost stubs: set<Stub>)
      requires Counted(handles, stubs, null)
      ensures pObj == null && Counted(handles + {this}, stubs, null)
    {
      pObj := null;
      new;
      assert forall s :: s in stubs ==> On(handles + {this}, s) == old(On(handles, s));
    }

    /** On an object, with a stub of its own. */
    constructor FromObject(obj: nat, ghost handles: set<Handle>, ghost stubs: set<Stub>)
      requires Counted(handles, stubs, null)
      ensures pObj != null && fresh(pObj) && pObj.given == obj && !pObj.detached
      ensures Counted(handles + {this}, stubs + {pObj}, null)
    {
      pObj := new Stub(obj);
      new;
      assert forall s :: s in stubs ==> On(handles + {this}, s) == old(On(handles, s));
      assert On(handles + {this}, pObj) == {this};
    }

    /** On the object of another handle. */
    constructor Copy(other: Handle, ghost handles: set<Handle>, ghost stubs: set<Stub>)
      requires Counted(handles, stubs, null) && other in handles
      modifies if other.pObj == null then {} else {other.pObj}`count
      ensures pObj == other.pObj && other.pObj == old(other.pObj) && Counted(handles + {this}, stubs, null)
      ensures forall s :: s in stubs ==> s.detached == old(s.detached)
    {
      pObj := null;
      new;
      Ref(other.pObj, handles, stubs);
      assert forall s :: s in stubs ==> On(handles + {this}, s) == old(On(handles, s));
      Settle(other.pObj, handles + {this}, stubs);
    }

    /** Assign another handle.  The counts stay right exactly if it is another, or there is nothing to count. */
    method Assign(other: Handle, ghost handles: set<Handle>, ghost stubs: set<Stub>)
      requires this in handles && other in handles && Counted(handles, stubs, null)
      modifies this, if pObj == null then {} else {pObj}, if other.pObj == null then {} else {other.pObj}
      ensures other != this ==> pObj == old(other.pObj) && other.pObj == old(other.pObj)
      ensures Counted(handles, stubs, null) <==> other != this || old(pObj) == null
      ensures forall h :: h in handles && h != this ==> h.pObj == old(h.pObj)
      ensures forall s :: s in stubs ==> s.detached == old(s.detached)
    {
      Ref(other.pObj, handles, stubs);
      Deref(handles, stubs, other.pObj);
      if other == this {
        AssignedItself(old(pObj), handles, stubs);
        pObj := other.pObj;
      } else {
        Settle(other.pObj, handles, stubs);
      }
    }

    /** A handle that is assigned itself is put on no stub, but stays counted on the one it was on. */
    lemma AssignedItself(was: Stub?, handles: set<Handle>, stubs: set<Stub>)
      requires this in handles && pObj == null && Counted(handles, stubs, was)
      ensures Counted(handles, stubs, null) <==> was == null
    {
      if was != null {
        assert Counts(handles, was, was) && was.live;
        assert !Counts(handles, was, null);
      }
    }

    /** Assign an object. */
    method AssignObject(obj: nat, ghost handles: set<Handle>, ghost stubs: set<Stub>)
      requires this in handles && Counted(handles, stubs, null)
      modifies this, if pObj == null then {} else {pObj}
      ensures pObj != null && fresh(pObj) && pObj.given == obj && !pObj.detached && Counted(handles, stubs + {pObj}, null)
      ensures forall h :: h in handles && h != this ==> h.pObj == old(h.pObj)
      ensures forall s :: s in stubs ==> s.detached == old(s.detached)
    {
      var stub := new Stub(obj);
      assert forall s :: s in stubs ==> On(handles, s) == old(On(handles, s));
      assert On(handles, stub) == {};
      Deref(handles, stubs + {stub}, stub);
      Settle(stub, handles, stubs + {stub});
    }

    /** Give the object away: no handle will deallocate it, and this one is on it no longer. */
    method Detach(ghost handles: set<Handle>, ghost stubs: set<Stub>) returns (p: nat)
      requires this in handles && pObj != null && Counted(handles, stubs, null)
      modifies this, pObj
      ensures p == old(pObj.obj) && pObj == null && Counted(handles, stubs, null)
      ensures old(pObj).detached && old(pObj).dealloc == 0
      ensures forall h :: h in handles && h != this ==> h.pObj == old(h.pObj)
      ensures forall s :: s in stubs && s != old(pObj) ==> s.detached == old(s.detached)
    {
      p := pObj.obj;
      ghost var was := pObj;
      pObj.obj := NULL;
      pObj.detached := true;
      assert forall s :: s in stubs ==> On(handles, s) == old(On(handles, s));
      Deref(handles, stubs, null);
      assert Disposed(was);
    }

    /** The destructor: the handle is no more. */
    method Destroy(ghost handles: set<Handle>, ghost stubs: set<Stub>)
      requires this in handles && Counted(handles, stubs, null)
      modifies this, if pObj == null then {} else {pObj}
      ensures Counted(handles - {this}, stubs, null)
      ensures forall h :: h in handles && h != this ==> h.pObj == old(h.pObj)
      ensures forall s :: s in stubs ==> s.detached == old(s.detached)
      ensures old(pObj) != null ==> (old(pObj).live <==> old(On(handles, pObj)) != {this})
      ensures old(pObj) != null && !old(pObj.detached) && old(pObj).given != NULL
              ==> (old(pObj).dealloc == 1 <==> old(On(handles, pObj)) == {this})
    {
      ghost var was := pObj;
      if was != null {
        OneLess(handles, was);
        assert Counts(handles, was, null) && Disposed(was);
        assert On(handles, was) == {this} <==> On(handles, was) - {this} == {};
      }
      Deref(handles, stubs, null);
      assert forall s :: s in stubs ==> On(handles - {this}, s) == On(handles, s);
      assert was != null ==> Disposed(was);
    }
  }

  // ----- Runs

  /** Handles are named by their position among those that exist. */
  datatype Op = MakeNull | Make(obj: nat) | MakeCopy(i: nat) | AssignTo(i: nat, j: nat) | AssignNew(i: nat, obj: nat) | GiveAway(i: nat) | Drop(i: nat)

  /** What a run comes to: on which stub each handle is (-1 for none), and what each stub was made for and whether that was given away. */
  datatype View = View(on: seq<int>, given: seq<nat>, detached: seq<bool>)

  /** The operation names handles that exist, assigns no handle to itself, and detaches only from an object. */
  predicate Possible(op: Op, v: View) {
    match op
    case MakeNull => true
    case Make(_) => true
    case MakeCopy(i) => i < |v.on|
    case AssignTo(i, j) => i < |v.on| && j < |v.on| && i != j
    case AssignNew(i, _) => i < |v.on|
    case GiveAway(i) => i < |v.on| && 0 <= v.on[i] < |v.detached|
    case Drop(i) => i < |v.on|
  }

  /** What the operation is to do. */
  ghost function Do(op: Op, v: View): View
    requires Possible(op, v)
  {
    match op
    case MakeNull => v.(on := v.on + [-1])
    case Make(obj) => View(v.on + [|v.given|], v.given + [obj], v.detached + [false])
    case MakeCopy(i) => v.(on := v.on + [v.on[i]])
    case AssignTo(i, j) => v.(on := v.on[i := v.on[j]])
    case AssignNew(i, obj) => View(v.on[i := |v.given|], v.given + [obj], v.detached + [false])
    case GiveAway(i) => View(v.on[i := -1], v.given, v.detached[v.on[i] := true])
    case Drop(i) => v.(on := v.on[..i] + v.on[i + 1..])
  }

  /** The operations one after the other; those that are not possible are left out. */
  ghost function DoAll(ops: seq<Op>): View {
    if ops == [] then View([], [], [])
    else
      var v := DoAll(ops[..|ops| - 1]);
      var op := ops[|ops| - 1];
      if Possible(op, v) then Do(op, v) else v
  }

  ghost predicate AllOf<T>(hs: seq<T>, handles: set<T>) {
    && (forall h :: h in handles ==> h in hs) && (forall h :: h in hs ==> h in handles)
    && forall i, j :: 0 <= i < j < |hs| ==> hs[i] != hs[j]
  }

  /** The stubs of the handles, and which objects were given away, are as the view says. */
  ghost predicate Fits(places: seq<Stub?>, made: seq<Stub>, away: seq<bool>, v: View) {
    && |places| == |v.on| && |made| == |v.given| && away == v.detached && |away| == |made|
    && (forall i :: 0 <= i < |places| ==> -1 <= v.on[i] < |made| && places[i] == if v.on[i] == -1 then null else made[v.on[i]])
    && forall k :: 0 <= k < |made| ==> made[k].given == v.given[k]
  }

  ghost function Places(hs: seq<Handle>): (places: seq<Stub?>)
    reads hs
    ensures |places| == |hs| && forall i :: 0 <= i < |hs| ==> places[i] == hs[i].pObj
  {
    seq(|hs|, i requires 0 <= i < |hs| reads hs => hs[i].pObj)
  }

  ghost function Away(made: seq<Stub>): (away: seq<bool>)
    reads made
    ensures |away| == |made| && forall k :: 0 <= k < |made| ==> away[k] == made[k].detached
  {
    seq(|made|, k requires 0 <= k < |made| reads made => made[k].detached)
  }

  /** All there is: the handles and stubs, named in sequences, with all counts right, and as the view says. */
  ghost predicate State(hs: seq<Handle>, made: seq<Stub>, handles: set<Handle>, stubs: set<Stub>, v: View)
    reads hs, made, handles, stubs
  {
    AllOf(hs, handles) && AllOf(made, stubs) && Counted(handles, stubs, null) && Fits(Places(hs), made, Away(made), v)
  }

  lemma AllInSet(hs: seq<Handle>, made: seq<Stub>, handles: set<Handle>, stubs: set<Stub>, v: View)
    requires State(hs, made, handles, stubs, v)
    ensures AllOf(hs, handles) && AllOf(made, stubs) && Counted(handles, stubs, null) && Fits(Places(hs), made, Away(made), v)
    ensures |hs| == |v.on| && |made| == |v.given| == |v.detached|
    ensures forall i :: 0 <= i < |hs| ==> -1 <= v.on[i] < |made| && hs[i].pObj == if v.on[i] == -1 then null else made[v.on[i]]
    ensures forall i :: 0 <= i < |hs| ==> hs[i] in handles && (hs[i].pObj != null ==> hs[i].pObj in stubs)
    ensures forall k :: 0 <= k < |made| ==> made[k] in stubs
    ensures forall i, j :: 0 <= i < |hs| && 0 <= j < |hs| && i != j ==> hs[i] != hs[j]
    ensures forall i, j :: 0 <= i < |made| && 0 <= j < |made| && i != j ==> made[i] != made[j]
  {
  }

  lemma WithOne<T>(hs: seq<T>, handles: set<T>, h: T)
    requires AllOf(hs, handles) && h !in handles
    ensures AllOf(hs + [h], handles + {h})
  {
    assert forall i :: 0 <= i < |hs| ==> hs[i] in handles;
  }

  // ----- What each operation does to the view

  lemma FitsNull(places: seq<Stub?>, made: seq<Stub>, away: seq<bool>, v: View)
    requires Fits(places, made, away, v)
    ensures |places| == |v.on| && |away| == |v.detached| && Possible(MakeNull, v) && Fits(places + [null], made, away, Do(MakeNull, v))
  {
  }

  lemma FitsMake(places: seq<Stub?>, made: seq<Stub>, away: seq<bool>, v: View, stub: Stub, obj: nat)
    requires Fits(places, made, away, v) && stub.given == obj
    ensures |places| == |v.on| && |away| == |v.detached| && Possible(Make(obj), v) && Fits(places + [stub], made + [stub], away + [false], Do(Make(obj), v))
  {
  }

  lemma FitsCopy(places: seq<Stub?>, made: seq<Stub>, away: seq<bool>, v: View, i: nat)
    requires Fits(places, made, away, v) && i < |places|
    ensures |places| == |v.on| && |away| == |v.detached| && Possible(MakeCopy(i), v) && Fits(places + [places[i]], made, away, Do(MakeCopy(i), v))
  {
  }

  lemma FitsAssign(places: seq<Stub?>, made: seq<Stub>, away: seq<bool>, v: View, i: nat, j: nat)
    requires Fits(places, made, away, v) && i < |places| && j < |places| && i != j
    ensures |places| == |v.on| && |away| == |v.detached| && Possible(AssignTo(i, j), v) && Fits(places[i := places[j]], made, away, Do(AssignTo(i, j), v))
  {
  }

  lemma FitsAssignNew(places: seq<Stub?>, made: seq<Stub>, away: seq<bool>, v: View, i: nat, stub: Stub, obj: nat)
    requires Fits(places, made, away, v) && i < |places| && stub.given == obj
    ensures |places| == |v.on| && |away| == |v.detached| && Possible(AssignNew(i, obj), v) && Fits(places[i := stub], made + [stub], away + [false], Do(AssignNew(i, obj), v))
  {
  }

  lemma FitsGiveAway(places: seq<Stub?>, made: seq<Stub>, away: seq<bool>, v: View, i: nat)
    requires Fits(places, made, away, v) && Possible(GiveAway(i), v)
    ensures |places| == |v.on| && |away| == |v.detached| && Possible(GiveAway(i), v) && Fits(places[i := null], made, away[v.on[i] := true], Do(GiveAway(i), v))
  {
  }

  lemma FitsDrop(places: seq<Stub?>, made: seq<Stub>, away: seq<bool>, v: View, i: nat)
    requires Fits(places, made, away, v) && i < |places|
    ensures |places| == |v.on| && |away| == |v.detached| && Possible(Drop(i), v) && Fits(places[..i] + places[i + 1..], made, away, Do(Drop(i), v))
  {
  }

  lemma StateIs(hs: seq<Handle>, made: seq<Stub>, handles: set<Handle>, stubs: set<Stub>, v: View)
    requires AllOf(hs, handles) && AllOf(made, stubs) && Counted(handles, stubs, null) && Fits(Places(hs), made, Away(made), v)
    ensures State(hs, made, handles, stubs, v)
  {
  }

  /** One operation, whichever it is, does to all handles and stubs what it should, and keeps all counts right. */
  method Step(op: Op, hs: seq<Handle>, ghost made: seq<Stub>, ghost handles: set<Handle>, ghost stubs: set<Stub>, ghost v: View)
    returns (hs': seq<Handle>, ghost made': seq<Stub>, ghost handles': set<Handle>, ghost stubs': set<Stub>)
    requires State(hs, made, handles, stubs, v) && Possible(op, v)
    modifies handles, stubs
    ensures State(hs', made', handles', stubs', Do(op, v)) && made <= made'
    ensures fresh(handles' - handles) && fresh(stubs' - stubs)
  {
    hide State, Do;
    AllInSet(hs, made, handles, stubs, v);
    made', stubs' := made, stubs;
    hs', handles' := hs, handles;
    match op
    case MakeNull =>
      hs', handles' := StepNull(hs, made, handles, stubs, v);
    case Make(obj) =>
      hs', made', handles', stubs' := StepMake(obj, hs, made, handles, stubs, v);
    case MakeCopy(i) =>
      hs', handles' := StepCopy(i, hs, made, handles, stubs, v);
    case AssignTo(i, j) =>
      StepAssign(i, j, hs, made, handles, stubs, v);
    case AssignNew(i, obj) =>
      made', stubs' := StepAssignNew(i, obj, hs, made, handles, stubs, v);
    case GiveAway(i) =>
      StepGiveAway(i, hs, made, handles, stubs, v);
    case Drop(i) =>
      hs', handles' := StepDrop(i, hs, made, handles, stubs, v);
  }

  method StepNull(hs: seq<Handle>, ghost made: seq<Stub>, ghost handles: set<Handle>, ghost stubs: set<Stub>, ghost v: View)
    returns (hs': seq<Handle>, ghost handles': set<Handle>)
    requires State(hs, made, handles, stubs, v)
    ensures State(hs', made, handles', stubs, Do(MakeNull, v)) && fresh(handles' - handles)
  {
    hide *;
    AllInSet(hs, made, handles, stubs, v);
    ghost var places, away := Places(hs), Away(made);
    FitsNull(places, made, away, v);
    var h := new Handle.Null(handles, stubs);
    hs', handles' := hs + [h], handles + {h};
    WithOne(hs, handles, h);
    assert Places(hs') == places + [null] && Away(made) == away;
    StateIs(hs', made, handles', stubs, Do(MakeNull, v));
  }

  method StepMake(obj: nat, hs: seq<Handle>, ghost made: seq<Stub>, ghost handles: set<Handle>, ghost stubs: set<Stub>, ghost v: View)
    returns (hs': seq<Handle>, ghost made': seq<Stub>, ghost handles': set<Handle>, ghost stubs': set<Stub>)
    requires State(hs, made, handles, stubs, v)
    ensures State(hs', made', handles', stubs', Do(Make(obj), v)) && made <= made'
    ensures fresh(handles' - handles) && fresh(stubs' - stubs)
  {
    hide *;
    AllInSet(hs, made, handles, stubs, v);
    ghost var places, away := Places(hs), Away(made);
    var h := new Handle.FromObject(obj, handles, stubs);
    ghost var stub: Stub := h.pObj;
    FitsMake(places, made, away, v, stub, obj);
    hs', handles' := hs + [h], handles + {h};
    made', stubs' := made + [stub], stubs + {stub};
    WithOne(hs, handles, h);
    WithOne(made, stubs, stub);
    assert Places(hs') == places + [stub] && Away(made') == away + [false];
    StateIs(hs', made', handles', stubs', Do(Make(obj), v));
  }

  method StepCopy(i: nat, hs: seq<Handle>, ghost made: seq<Stub>, ghost handles: set<Handle>, ghost stubs: set<Stub>, ghost v: View)
    returns (hs': seq<Handle>, ghost handles': set<Handle>)
    requires State(hs, made, handles, stubs, v) && i < |hs|
    modifies stubs
    ensures Possible(MakeCopy(i), v) && State(hs', made, handles', stubs, Do(MakeCopy(i), v)) && fresh(handles' - handles)
  {
    hide *;
    AllInSet(hs, made, handles, stubs, v);
    ghost var places, away := Places(hs), Away(made);
    FitsCopy(places, made, away, v, i);
    var h := new Handle.Copy(hs[i], handles, stubs);
    hs', handles' := hs + [h], handles + {h};
    WithOne(hs, handles, h);
    assert Places(hs') == places + [places[i]] && Away(made) == away;
    StateIs(hs', made, handles', stubs, Do(MakeCopy(i), v));
  }

  method StepAssign(i: nat, j: nat, hs: seq<Handle>, ghost made: seq<Stub>, ghost handles: set<Handle>, ghost stubs: set<Stub>, ghost v: View)
    requires State(hs, made, handles, stubs, v) && i < |hs| && j < |hs| && i != j
    modifies handles, stubs
    ensures Possible(AssignTo(i, j), v) && State(hs, made, handles, stubs, Do(AssignTo(i, j), v))
  {
    hide *;
    AllInSet(hs, made, handles, stubs, v);
    ghost var places, away := Places(hs), Away(made);
    FitsAssign(places, made, away, v, i, j);
    hs[i].Assign(hs[j], handles, stubs);
    assert Places(hs) == places[i := places[j]] && Away(made) == away;
    StateIs(hs, made, handles, stubs, Do(AssignTo(i, j), v));
  }

  method StepAssignNew(i: nat, obj: nat, hs: seq<Handle>, ghost made: seq<Stub>, ghost handles: set<Handle>, ghost stubs: set<Stub>, ghost v: View)
    returns (ghost made': seq<Stub>, ghost stubs': set<Stub>)
    requires State(hs, made, handles, stubs, v) && i < |hs|
    modifies handles, stubs
    ensures Possible(AssignNew(i, obj), v) && State(hs, made', handles, stubs', Do(AssignNew(i, obj), v))
    ensures made <= made' && fresh(stubs' - stubs)
  {
    hide *;
    AllInSet(hs, made, handles, stubs, v);
    ghost var places, away := Places(hs), Away(made);
    hs[i].AssignObject(obj, handles, stubs);
    ghost var stub: Stub := hs[i].pObj;
    FitsAssignNew(places, made, away, v, i, stub, obj);
    made', stubs' := made + [stub], stubs + {stub};
    WithOne(made, stubs, stub);
    assert Places(hs) == places[i := stub] && Away(made') == away + [false];
    StateIs(hs, made', handles, stubs', Do(AssignNew(i, obj), v));
  }

  method StepGiveAway(i: nat, hs: seq<Handle>, ghost made: seq<Stub>, ghost handles: set<Handle>, ghost stubs: set<Stub>, ghost v: View)
    requires State(hs, made, handles, stubs, v) && Possible(GiveAway(i), v)
    modifies handles, stubs
    ensures State(hs, made, handles, stubs, Do(GiveAway(i), v))
  {
    hide *;
    AllInSet(hs, made, handles, stubs, v);
    ghost var places, away := Places(hs), Away(made);
    FitsGiveAway(places, made, away, v, i);
    var p := hs[i].Detach(handles, stubs);
    assert Places(hs) == places[i := null] && Away(made) == away[v.on[i] := true];
    StateIs(hs, made, handles, stubs, Do(GiveAway(i), v));
  }

  method StepDrop(i: nat, hs: seq<Handle>, ghost made: seq<Stub>, ghost handles: set<Handle>, ghost stubs: set<Stub>, ghost v: View)
    returns (hs': seq<Handle>, ghost handles': set<Handle>)
    requires State(hs, made, handles, stubs, v) && i < |hs|
    modifies handles, stubs
    ensures Possible(Drop(i), v) && State(hs', made, handles', stubs, Do(Drop(i), v)) && handles' <= handles
  {
    hide *;
    AllInSet(hs, made, handles, stubs, v);
    ghost var places, away := Places(hs), Away(made);
    FitsDrop(places, made, away, v, i);
    hs[i].Destroy(handles, stubs);
    hs', handles' := hs[..i] + hs[i + 1..], handles - {hs[i]};
    WithoutOne(hs, handles, i);
    assert Places(hs') == places[..i] + places[i + 1..] && Away(made) == away;
    StateIs(hs', made, handles', stubs, Do(Drop(i), v));
  }

  lemma WithoutOne(hs: seq<Handle>, handles: set<Handle>, i: nat)
    requires AllOf(hs, handles) && i < |hs|
    ensures AllOf(hs[..i] + hs[i + 1..], handles - {hs[i]})
  {
    var rest := hs[..i] + hs[i + 1..];
    assert forall k :: 0 <= k < |rest| ==> rest[k] == if k < i then hs[k] else hs[k + 1];
    forall h | h in handles - {hs[i]}
      ensures h in rest
    {
      var k :| 0 <= k < |hs| && hs[k] == h;
      assert rest[if k < i then k else k - 1] == h;
    }
  }

  /** The same of the handles themselves. */
  predicate PossibleOn(op: Op, hs: seq<Handle>)
    reads hs
  {
    match op
    case MakeNull => true
    case Make(_) => true
    case MakeCopy(i) => i < |hs|
    case AssignTo(i, j) => i < |hs| && j < |hs| && i != j
    case AssignNew(i, _) => i < |hs|
    case GiveAway(i) => i < |hs| && hs[i].pObj != null
    case Drop(i) => i < |hs|
  }

  /** Any run of operations, of which those that are not possible are left out, comes to what they should do. */
  method Run(ops: seq<Op>) returns (hs: seq<Handle>, ghost made: seq<Stub>, ghost handles: set<Handle>, ghost stubs: set<Stub>)
    ensures State(hs, made, handles, stubs, DoAll(ops)) && fresh(handles) && fresh(stubs)
  {
    hs, made, handles, stubs := [], [], {}, {};
    for n := 0 to |ops|
      invariant State(hs, made, handles, stubs, DoAll(ops[..n])) && fresh(handles) && fresh(stubs)
    {
      hide State, Do;
      ghost var v := DoAll(ops[..n]);
      AllInSet(hs, made, handles, stubs, v);
      assert ops[..n + 1][..n] == ops[..n] && ops[..n + 1][n] == ops[n];
      if PossibleOn(ops[n], hs) {
        ghost var more, stubs';
        hs, made, more, stubs' := Step(ops[n], hs, made, handles, stubs, v);
        handles, stubs := more, stubs';
      }
    }
    assert ops[..|ops|] == ops;
  }

  /** What a run leaves behind: exactly the stubs without handles are gone, and they took the objects with them that were not given away. */
  lemma RunLeaves(hs: seq<Handle>, made: seq<Stub>, handles: set<Handle>, stubs: set<Stub>, v: View, k: nat)
    requires State(hs, made, handles, stubs, v) && k < |made|
    ensures |v.given| == |v.detached| == |made|
    ensures made[k].live <==> k in v.on
    ensures made[k].dealloc == if k in v.on || v.detached[k] || v.given[k] == NULL then 0 else 1
  {
    AllInSet(hs, made, handles, stubs, v);
    var stub := made[k];
    assert Counts(handles, stub, null) && Disposed(stub);
    if k in v.on {
      var i :| 0 <= i < |v.on| && v.on[i] == k;
      assert hs[i].pObj == stub;
    } else {
      forall h | h in handles
        ensures h.pObj != stub
      {
        var i :| 0 <= i < |hs| && hs[i] == h;
      }
      assert On(handles, stub) == {};
    }
  }

  /** Once no handle is left, every object that was not given away has been deallocated, once. */
  lemma NothingLeaks(stubs: set<Stub>, stub: Stub)
    requires Counted({}, stubs, null) && stub in stubs
    ensures !stub.live && (!stub.detached && stub.given != NULL ==> stub.dealloc == 1)
  {
    assert Counts({}, stub, null) && Disposed(stub);
    assert On({}, stub) == {};
  }

  /** While a handle is on a stub, its object is there, unless it was given away. */
  lemma StillThere(handles: set<Handle>, stubs: set<Stub>, h: Handle)
    requires Counted(handles, stubs, null) && h in handles && h.pObj != null
    ensures h.pObj.dealloc == 0 && h.pObj.count == |On(handles, h.pObj)| && h.pObj.obj == if h.pObj.detached then NULL else h.pObj.given
  {
    assert Counts(handles, h.pObj, null) && Disposed(h.pObj);
  }
}
