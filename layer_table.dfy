/**
 * The project's layer table (the "layers" array of ProjectSettings/TagManager.asset)
 * and CreateLayerIfNotExists, which makes sure a named user layer exists in it.
 */
module LayerTable {
  import opened Wrappers
  import opened Effects

  /**
   * One element of the serialized "layers" array: None when
   * GetArrayElementAtIndex gives a null property, Some(name) otherwise.
   * An empty name marks a free slot.
   */
  type Slot = Option<string>

  /** Layers 0 to 7 are Unity's built-in layers; user layers start here. */
  const FirstUserLayer: nat := 8

  /** The layer both copies of the tool isolate the prefab instance on. */
  const ThumbnailLayerName := "ThumbnailLayer"

  /** The lowest index i with from <= i < |table| whose slot holds name. */
  function FindNamed(table: seq<Slot>, name: string, from: nat): (r: Option<nat>)
    decreases |table| - from
    ensures r.Some? ==> from <= r.value < |table| && table[r.value] == Some(name)
    ensures r.Some? ==> forall j :: from <= j < r.value ==> table[j] != Some(name)
    ensures r.None? <==> forall j :: from <= j < |table| ==> table[j] != Some(name)
  {
    if from >= |table| then None
    else if table[from] == Some(name) then Some(from)
    else FindNamed(table, name, from + 1)
  }

  /** The lowest index i with from <= i < |table| whose slot is a free (empty) one. */
  function FindFree(table: seq<Slot>, from: nat): (r: Option<nat>)
    decreases |table| - from
    ensures r.Some? ==> from <= r.value < |table| && table[r.value] == Some("")
    ensures r.Some? ==> forall j :: from <= j < r.value ==> table[j] != Some("")
    ensures r.None? <==> forall j :: from <= j < |table| ==> table[j] != Some("")
  {
    if from >= |table| then None
    else if table[from] == Some("") then Some(from)
    else FindFree(table, from + 1)
  }

  /** What CreateLayerIfNotExists reports (as a console message of the matching kind). */
  datatype LayerOutcome = AlreadyExists | Created(slot: nat) | NoFreeSlot

  datatype Allocation = Allocation(table: seq<Slot>, outcome: LayerOutcome)

  /**
   * The effect of CreateLayerIfNotExists on the table, as a function: a name
   * already present at a user index leaves the table alone; otherwise the
   * lowest free user slot receives the name; a full table is left alone.
   */
  function AllocateLayer(table: seq<Slot>, name: string): (r: Allocation)
    ensures |r.table| == |table|
    // slots 0..7 are never written
    ensures forall i :: 0 <= i < |table| && i < FirstUserLayer ==> r.table[i] == table[i]
    // a name already present leaves the table unchanged
    ensures (exists i :: FirstUserLayer <= i < |table| && table[i] == Some(name)) ==>
              r == Allocation(table, AlreadyExists)
    // a slot is written exactly when the name is absent and some user slot is free
    ensures r.outcome.Created? <==>
              (forall i :: FirstUserLayer <= i < |table| ==> table[i] != Some(name)) &&
              (exists i :: FirstUserLayer <= i < |table| && table[i] == Some(""))
    // ... and then it is the lowest free user slot, and no other slot changes
    ensures r.outcome.Created? ==>
              var k := r.outcome.slot;
              && FirstUserLayer <= k < |table| && table[k] == Some("")
              && (forall j :: FirstUserLayer <= j < k ==> table[j] != Some(""))
              && r.table == table[k := Some(name)]
    // the name is reported present exactly when some user slot holds it
    ensures r.outcome.AlreadyExists? <==>
              exists i :: FirstUserLayer <= i < |table| && table[i] == Some(name)
    // the warning is given exactly when the name is absent and no user slot is free
    ensures r.outcome.NoFreeSlot? <==>
              forall i :: FirstUserLayer <= i < |table| ==> table[i] != Some(name) && table[i] != Some("")
    // a full table is left unchanged
    ensures r.outcome.NoFreeSlot? ==>
              r.table == table &&
              forall i :: FirstUserLayer <= i < |table| ==> table[i] != Some(name) && table[i] != Some("")
  {
    match FindNamed(table, name, FirstUserLayer)
    case Some(_) => Allocation(table, AlreadyExists)
    case None =>
      match FindFree(table, FirstUserLayer)
      case Some(k) => Allocation(table[k := Some(name)], Created(k))
      case None => Allocation(table, NoFreeSlot)
  }

  /** The console output of CreateLayerIfNotExists for each outcome. */
  function LayerEffects(outcome: LayerOutcome): seq<Effect>
  {
    match outcome
    case AlreadyExists => [Log(Info)]
    case Created(_) => [Log(Info), ApplyLayerSettings]
    case NoFreeSlot => [Log(Warning)]
  }

  /** A second call with the same name changes nothing and reports that the layer exists. */
  lemma AllocateLayerIdempotent(table: seq<Slot>, name: string)
    requires AllocateLayer(table, name).outcome != NoFreeSlot
    ensures var once := AllocateLayer(table, name).table;
            AllocateLayer(once, name) == Allocation(once, AlreadyExists)
  {
    var r := AllocateLayer(table, name);
    if r.outcome.Created? {
      assert r.table[r.outcome.slot] == Some(name);
    } else {
      var k := FindNamed(table, name, FirstUserLayer).value;
      assert r.table[k] == Some(name);
    }
  }

  /** When the table is full and the name is absent, a second call is just as ineffective. */
  lemma AllocateLayerFullStaysFull(table: seq<Slot>, name: string)
    requires AllocateLayer(table, name).outcome == NoFreeSlot
    ensures AllocateLayer(AllocateLayer(table, name).table, name) == Allocation(table, NoFreeSlot)
  {
  }

  /**
   * Slots 0..7 are never read for matching: two tables that agree on the
   * user slots give the same outcome and the same user slots afterwards.
   */
  lemma {:induction false} AllocateLayerIgnoresReserved(s: seq<Slot>, t: seq<Slot>, name: string)
    requires |s| == |t|
    requires forall i :: FirstUserLayer <= i < |s| ==> s[i] == t[i]
    ensures AllocateLayer(s, name).outcome == AllocateLayer(t, name).outcome
    ensures forall i :: FirstUserLayer <= i < |s| ==> AllocateLayer(s, name).table[i] == AllocateLayer(t, name).table[i]
  {
    FindNamedAgrees(s, t, name, FirstUserLayer);
    FindFreeAgrees(s, t, FirstUserLayer);
  }

  lemma {:induction false} FindNamedAgrees(s: seq<Slot>, t: seq<Slot>, name: string, from: nat)
    requires |s| == |t|
    requires forall i :: from <= i < |s| ==> s[i] == t[i]
    ensures FindNamed(s, name, from) == FindNamed(t, name, from)
    decreases |s| - from
  {
    if from < |s| {
      FindNamedAgrees(s, t, name, from + 1);
    }
  }

  lemma {:induction false} FindFreeAgrees(s: seq<Slot>, t: seq<Slot>, from: nat)
    requires |s| == |t|
    requires forall i :: from <= i < |s| ==> s[i] == t[i]
    ensures FindFree(s, from) == FindFree(t, from)
    decreases |s| - from
  {
    if from < |s| {
      FindFreeAgrees(s, t, from + 1);
    }
  }

  /**
   * LayerMask.NameToLayer, assumed to give the lowest index whose slot holds
   * the name, or -1 when no slot does.
   */
  function NameToLayer(table: seq<Slot>, name: string): (r: int)
    ensures -1 <= r < |table|
    ensures r == -1 <==> forall i :: 0 <= i < |table| ==> table[i] != Some(name)
    ensures r >= 0 ==> table[r] == Some(name) && forall j :: 0 <= j < r ==> table[j] != Some(name)
  {
    match FindNamed(table, name, 0)
    case Some(k) => k
    case None => -1
  }

  /** Unless the table was full, the layer can be looked up by name after the call. */
  lemma AllocatedLayerResolves(table: seq<Slot>, name: string)
    requires AllocateLayer(table, name).outcome != NoFreeSlot
    ensures 0 <= NameToLayer(AllocateLayer(table, name).table, name) < |table|
  {
    var r := AllocateLayer(table, name);
    if r.outcome.Created? {
      assert r.table[r.outcome.slot] == Some(name);
    } else {
      var k := FindNamed(table, name, FirstUserLayer).value;
      assert r.table[k] == Some(name);
    }
  }

  /** The first loop of CreateLayerIfNotExists: is the name already a user layer? */
  method LayerExists(layers: array<Slot>, name: string) returns (found: bool)
    ensures found <==> exists i :: FirstUserLayer <= i < layers.Length && layers[i] == Some(name)
  {
    found := false;
    var i := FirstUserLayer;
    while i < layers.Length
      invariant FirstUserLayer <= i
      invariant forall j :: FirstUserLayer <= j < i && j < layers.Length ==> layers[j] != Some(name)
    {
      if layers[i] == Some(name) {
        found := true;
        break;
      }
      i := i + 1;
    }
  }

  /**
   * CreateLayerIfNotExists: the table is updated in place as AllocateLayer
   * says, and the console shows one message (plus the settings write when a
   * slot was taken).
   */
  method CreateLayerIfNotExists(layers: array<Slot>, name: string, host: Host) returns (outcome: LayerOutcome)
    modifies layers, host
    ensures Allocation(layers[..], outcome) == AllocateLayer(old(layers[..]), name)
    ensures host.trace == old(host.trace) + LayerEffects(outcome)
  {
    var layerExists := LayerExists(layers, name);
    if !layerExists {
      var i := FirstUserLayer;
      while i < layers.Length
        invariant FirstUserLayer <= i
        invariant forall j :: FirstUserLayer <= j < i && j < layers.Length ==> layers[j] != Some("")
        invariant layers[..] == old(layers[..])
        invariant host.trace == old(host.trace)
      {
        if layers[i] == Some("") {
          layers[i] := Some(name);
          host.Emit(Log(Info));
          host.Emit(ApplyLayerSettings);
          outcome := Created(i);
          return;
        }
        i := i + 1;
      }
      host.Emit(Log(Warning));
      outcome := NoFreeSlot;
    } else {
      host.Emit(Log(Info));
      outcome := AlreadyExists;
    }
  }
}
