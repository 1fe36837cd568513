/** GetSnapShotsByVM: the VM's snapshot tree (VirtualMachineSnapshotTree)
    copied node by node into Snapshot records, keeping the tree's shape. */
module Snapshots {
  import opened Wrappers

  /** VirtualMachinePowerState. */
  datatype PowerState = PoweredOff | PoweredOn | Suspended

  /** The enum's ToString(). */
  function PowerStateName(s: PowerState): string
  {
    match s
    case PoweredOff => "poweredOff"
    case PoweredOn => "poweredOn"
    case Suspended => "suspended"
  }

  lemma PowerStateNameInjective(s: PowerState, t: PowerState)
    ensures PowerStateName(s) == PowerStateName(t) <==> s == t
  {
  }

  /** VirtualMachineSnapshotTree: the snapshot's name, MoRef value, power
      state, description, creation time (as a tick count) and the nullable
      child list. */
  datatype SnapshotTree = SnapshotTree(name: string, snapshotRef: string, state: PowerState,
                                       description: Option<string>, createTime: int,
                                       childSnapshotList: TreeArray)

  /** A nullable VirtualMachineSnapshotTree[] (a dedicated type rather than
      Option, so that termination can see that the elements are smaller
      than the node holding them). */
  datatype TreeArray = NullTrees | Trees(trees: seq<SnapshotTree>)

  /** The Snapshot record. */
  datatype Snapshot = Snapshot(name: string, id: string, stateName: string, createTime: Option<int>,
                               description: Option<string>, children: SnapshotArray)

  /** A nullable Snapshot[]. */
  datatype SnapshotArray = NullSnapshots | Snapshots(snapshots: seq<Snapshot>)

  /** ProcessSnapshotTree: one Snapshot per input node, in order. */
  function ProcessSnapshotTree(snapshotTree: seq<SnapshotTree>): (r: seq<Snapshot>)
    ensures |r| == |snapshotTree|
    decreases snapshotTree
  {
    if snapshotTree == [] then []
    else [ProcessSnapshot(snapshotTree[0])] + ProcessSnapshotTree(snapshotTree[1..])
  }

  function ProcessSnapshot(snapshot: SnapshotTree): Snapshot
    decreases snapshot
  {
    Snapshot(snapshot.name, snapshot.snapshotRef, PowerStateName(snapshot.state),
             Some(snapshot.createTime), snapshot.description,
             if snapshot.childSnapshotList.Trees? then Snapshots(ProcessSnapshotTree(snapshot.childSnapshotList.trees))
             else NullSnapshots)
  }

  /** Each output node copies its input node's fields, and its children are
      null exactly when the input's child list is null, else the mapped
      child list. */
  lemma {:induction false} ProcessSnapshotTreeAt(snapshotTree: seq<SnapshotTree>, i: int)
    requires 0 <= i < |snapshotTree|
    ensures var s := ProcessSnapshotTree(snapshotTree)[i];
      var t := snapshotTree[i];
      && s.name == t.name && s.id == t.snapshotRef && s.stateName == PowerStateName(t.state)
      && s.description == t.description && s.createTime == Some(t.createTime)
      && (s.children.NullSnapshots? <==> t.childSnapshotList.NullTrees?)
      && (t.childSnapshotList.Trees? ==> s.children == Snapshots(ProcessSnapshotTree(t.childSnapshotList.trees)))
    decreases |snapshotTree|
  {
    if i > 0 {
      ProcessSnapshotTreeAt(snapshotTree[1..], i - 1);
    }
  }

  /** The shape of a tree: nodes and null/non-null child lists, no data. */
  datatype Shape = Node(kids: ShapeArray)

  datatype ShapeArray = NullKids | Kids(shapes: seq<Shape>)

  function TreeShapes(ts: seq<SnapshotTree>): seq<Shape>
    decreases ts
  {
    if ts == [] then [] else [TreeShape(ts[0])] + TreeShapes(ts[1..])
  }

  function TreeShape(t: SnapshotTree): Shape
    decreases t
  {
    Node(if t.childSnapshotList.Trees? then Kids(TreeShapes(t.childSnapshotList.trees)) else NullKids)
  }

  function SnapshotShapes(ss: seq<Snapshot>): seq<Shape>
    decreases ss
  {
    if ss == [] then [] else [SnapshotShape(ss[0])] + SnapshotShapes(ss[1..])
  }

  function SnapshotShape(s: Snapshot): Shape
    decreases s
  {
    Node(if s.children.Snapshots? then Kids(SnapshotShapes(s.children.snapshots)) else NullKids)
  }

  /** The mapping preserves the shape of the whole forest. */
  lemma {:induction false} ShapePreserved(snapshotTree: seq<SnapshotTree>)
    ensures SnapshotShapes(ProcessSnapshotTree(snapshotTree)) == TreeShapes(snapshotTree)
    decreases snapshotTree
  {
    if snapshotTree != [] {
      var t := snapshotTree[0];
      if t.childSnapshotList.Trees? {
        ShapePreserved(t.childSnapshotList.trees);
      }
      ShapePreserved(snapshotTree[1..]);
    }
  }

  /** The number of nodes of a forest. */
  function CountTrees(ts: seq<SnapshotTree>): nat
    decreases ts
  {
    if ts == [] then 0
    else 1 + (if ts[0].childSnapshotList.Trees? then CountTrees(ts[0].childSnapshotList.trees) else 0)
         + CountTrees(ts[1..])
  }

  function CountSnapshots(ss: seq<Snapshot>): nat
    decreases ss
  {
    if ss == [] then 0
    else 1 + (if ss[0].children.Snapshots? then CountSnapshots(ss[0].children.snapshots) else 0)
         + CountSnapshots(ss[1..])
  }

  /** The output has as many snapshots in all as the input has nodes. */
  lemma {:induction false} NodeCountPreserved(snapshotTree: seq<SnapshotTree>)
    ensures CountSnapshots(ProcessSnapshotTree(snapshotTree)) == CountTrees(snapshotTree)
    decreases snapshotTree
  {
    if snapshotTree != [] {
      var t := snapshotTree[0];
      if t.childSnapshotList.Trees? {
        NodeCountPreserved(t.childSnapshotList.trees);
      }
      NodeCountPreserved(snapshotTree[1..]);
    }
  }

  /** The parts of the VirtualMachine view the step reads: its Snapshot
      property (None when null), holding the nullable RootSnapshotList. */
  datatype VmView = VmView(snapshot: Option<TreeArray>)

  /** GetSnapShotsByVM.Run once connected. `vm` is the view GetView returns
      (None when null); reading the Snapshot property of a null view throws,
      and so does the loop over a null root list. */
  function Run(vm: Option<VmView>, showOutcomeForNoResults: bool)
    : (result: StepResult<seq<Snapshot>>)
    ensures vm.None? ==> result == Error(NullReference)
    ensures vm.Some? && vm.value.snapshot.None? ==> (result.NoResults? <==> showOutcomeForNoResults)
    ensures vm.Some? && vm.value.snapshot.None? && !showOutcomeForNoResults ==> result == Done([])
    ensures vm.Some? && vm.value.snapshot == Some(NullTrees) ==> result == Error(NullReference)
    ensures vm.Some? && vm.value.snapshot.Some? && vm.value.snapshot.value.Trees? ==>
      result == Done(ProcessSnapshotTree(vm.value.snapshot.value.trees))
    ensures result.Done? ==>
      vm.Some? && |result.data| == if vm.value.snapshot.Some? then |vm.value.snapshot.value.trees| else 0
  {
    if vm.None? then Error(NullReference)
    else
      var snapshotInfo := vm.value.snapshot;
      if snapshotInfo.Some? then
        if snapshotInfo.value.Trees? then Done(ProcessSnapshotTree(snapshotInfo.value.trees))
        else Error(NullReference)
      else if showOutcomeForNoResults then NoResults
      else Done([])
  }
}
