/** GetDatastoreClusters: the storage pods (datastore clusters) found under a
    root, kept when they have a datastore attached to a host and Storage DRS
    enabled, each check switchable off by a setting. */
module DatastoreClusters {
  import opened Wrappers

  /** A datastore of a pod as read: its nullable Host array, given here by
      its length. */
  datatype Datastore = Datastore(hosts: Option<nat>)

  /** A StoragePod: name, MoRef value, capacity and free space, the views of
      its child datastores (None where the view is null), and whether its
      Storage DRS pod configuration is enabled. */
  datatype Pod = Pod(name: string, id: string, capacity: int, freeSpace: int,
                     datastores: seq<Option<Datastore>>, drsEnabled: bool)

  /** The DatastoreCluster record. */
  datatype DatastoreCluster = DatastoreCluster(name: string, id: string, capacity: int, freeSpace: int)

  function ToCluster(pod: Pod): DatastoreCluster
  {
    DatastoreCluster(pod.name, pod.id, pod.capacity, pod.freeSpace)
  }

  /** A datastore view that is non-null with a non-empty Host array. */
  predicate AttachedToHost(d: Option<Datastore>)
  {
    d.Some? && d.value.hosts.Some? && d.value.hosts.value > 0
  }

  /** The pod passes the host check: switched off, or some datastore is
      attached to a host. */
  predicate HostCheck(pod: Pod, includeClusterWithoutHost: bool)
  {
    includeClusterWithoutHost || exists i :: 0 <= i < |pod.datastores| && AttachedToHost(pod.datastores[i])
  }

  /** The pod passes the DRS check: switched off, or DRS enabled. */
  predicate DrsCheck(pod: Pod, includeClusterWithDrsDisabled: bool)
  {
    includeClusterWithDrsDisabled || pod.drsEnabled
  }

  predicate Included(pod: Pod, includeClusterWithoutHost: bool, includeClusterWithDrsDisabled: bool)
  {
    HostCheck(pod, includeClusterWithoutHost) && DrsCheck(pod, includeClusterWithDrsDisabled)
  }

  /** The `hasAssociatedHosts` flag: true at once when the check is switched
      off, else set by the first datastore attached to a host, where the
      inner loop stops. `inspected` is how many datastores were read. */
  method HasAssociatedHosts(pod: Pod, includeClusterWithoutHost: bool)
    returns (hasAssociatedHosts: bool, inspected: nat)
    ensures hasAssociatedHosts == HostCheck(pod, includeClusterWithoutHost)
    ensures includeClusterWithoutHost ==> inspected == 0
    ensures !includeClusterWithoutHost && hasAssociatedHosts ==>
      && 0 < inspected <= |pod.datastores| && AttachedToHost(pod.datastores[inspected - 1])
      && forall j :: 0 <= j < inspected - 1 ==> !AttachedToHost(pod.datastores[j])
    ensures !includeClusterWithoutHost && !hasAssociatedHosts ==> inspected == |pod.datastores|
  {
    hasAssociatedHosts := false;
    inspected := 0;
    if includeClusterWithoutHost {
      hasAssociatedHosts := true;
    } else {
      while inspected < |pod.datastores|
        invariant 0 <= inspected <= |pod.datastores|
        invariant forall j :: 0 <= j < inspected ==> !AttachedToHost(pod.datastores[j])
      {
        var datastore := pod.datastores[inspected];
        inspected := inspected + 1;
        if datastore.Some? && datastore.value.hosts.Some? && datastore.value.hosts.value > 0 {
          hasAssociatedHosts := true;
          break;
        }
      }
    }
  }

  /** The clusters kept from a pod list (null entries skipped), in list
      order. */
  function Kept(pods: seq<Option<Pod>>, includeClusterWithoutHost: bool, includeClusterWithDrsDisabled: bool)
    : seq<DatastoreCluster>
  {
    if pods == [] then []
    else
      var last := pods[|pods| - 1];
      Kept(pods[..|pods| - 1], includeClusterWithoutHost, includeClusterWithDrsDisabled) +
        (if last.Some? && Included(last.value, includeClusterWithoutHost, includeClusterWithDrsDisabled)
         then [ToCluster(last.value)] else [])
  }

  /** GetDatastoreClusters.Run from the pod search on: `storagePods` is the
      search result (None when null), each entry None where the conversion
      to StoragePod gives null. */
  method Run(storagePods: Option<seq<Option<Pod>>>, includeClusterWithoutHost: bool,
             includeClusterWithDrsDisabled: bool, showOutcomeForNoResults: bool)
    returns (result: StepResult<seq<DatastoreCluster>>)
    ensures storagePods.None? ==> result == if showOutcomeForNoResults then NoResults else Done([])
    ensures storagePods.Some? ==>
      result == Done(Kept(storagePods.value, includeClusterWithoutHost, includeClusterWithDrsDisabled))
  {
    var clusters: seq<DatastoreCluster> := [];
    if storagePods.Some? {
      var pods := storagePods.value;
      for k := 0 to |pods|
        invariant clusters == Kept(pods[..k], includeClusterWithoutHost, includeClusterWithDrsDisabled)
      {
        assert pods[..k + 1][..k] == pods[..k];
        var pod := pods[k];
        if pod.Some? {
          var hasAssociatedHosts, _ := HasAssociatedHosts(pod.value, includeClusterWithoutHost);
          var isDrs := false;
          if includeClusterWithDrsDisabled || pod.value.drsEnabled {
            isDrs := true;
          }
          if hasAssociatedHosts && isDrs {
            clusters := clusters + [ToCluster(pod.value)];
          }
        }
      }
      assert pods[..|pods|] == pods;
    } else if showOutcomeForNoResults {
      return NoResults;
    }
    result := Done(clusters);
  }

  /** A cluster is listed exactly when it comes from a non-null pod that
      passes both checks; the list keeps the pods' order and never holds
      more entries than there are pods. */
  lemma {:induction false} KeptExactly(pods: seq<Option<Pod>>, noHost: bool, drsDisabled: bool)
    ensures forall c :: c in Kept(pods, noHost, drsDisabled) <==>
      exists i :: 0 <= i < |pods| && pods[i].Some? && Included(pods[i].value, noHost, drsDisabled) &&
        c == ToCluster(pods[i].value)
    ensures |Kept(pods, noHost, drsDisabled)| <= |pods|
  {
    if pods != [] {
      var init := pods[..|pods| - 1];
      KeptExactly(init, noHost, drsDisabled);
      forall i | 0 <= i < |init| ensures init[i] == pods[i] { }
    }
  }

  lemma {:induction false} KeptKeepsOrder(a: seq<Option<Pod>>, b: seq<Option<Pod>>, noHost: bool, drsDisabled: bool)
    ensures Kept(a + b, noHost, drsDisabled) == Kept(a, noHost, drsDisabled) + Kept(b, noHost, drsDisabled)
    decreases |b|
  {
    if b == [] {
      assert a + b == a;
    } else {
      assert (a + b)[..|a + b| - 1] == a + b[..|b| - 1];
      KeptKeepsOrder(a, b[..|b| - 1], noHost, drsDisabled);
    }
  }

  /** Relaxing either setting never drops a cluster. */
  lemma {:induction false} SettingsOnlyWiden(pods: seq<Option<Pod>>, noHost: bool, drsDisabled: bool)
    ensures forall c :: c in Kept(pods, noHost, drsDisabled) ==> c in Kept(pods, true, drsDisabled)
    ensures forall c :: c in Kept(pods, noHost, drsDisabled) ==> c in Kept(pods, noHost, true)
  {
    KeptExactly(pods, noHost, drsDisabled);
    KeptExactly(pods, true, drsDisabled);
    KeptExactly(pods, noHost, true);
  }
}
