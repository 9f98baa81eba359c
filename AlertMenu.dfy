/**
 * The alert's drop-down menu: the action links it lists, and the silence
 * item, which opens the silence form preset with the alert's writable
 * clusters.
 */
module AlertMenu {
  import opened Wrappers
  import opened Seqs
  import opened ApiTypes

  /** Annotations that are action links. */
  function LinkActions(annotations: seq<Annotation>): seq<Annotation> {
    Keep(Keep(annotations, IsLink), IsAction)
  }

  /** The "Actions:" entries: the alert's own action links, then the group's shared ones. */
  function Actions(alert: Alert, group: AlertGroup): (r: seq<Annotation>)
    ensures forall a :: a in r ==> a.isLink && a.isAction
    ensures forall a :: a in r <==>
      (a in alert.annotations || a in group.shared.annotations) && a.isLink && a.isAction
  {
    KeepMembers(alert.annotations, IsLink);
    KeepMembers(Keep(alert.annotations, IsLink), IsAction);
    KeepMembers(group.shared.annotations, IsLink);
    KeepMembers(Keep(group.shared.annotations, IsLink), IsAction);
    LinkActions(alert.annotations) + LinkActions(group.shared.annotations)
  }

  /**
   * The actions split in two: the first part lists exactly the alert's
   * action links in their order, the rest exactly the group's.
   */
  lemma ActionsExact(alert: Alert, group: AlertGroup) returns (n: nat, own: seq<nat>, shared: seq<nat>)
    ensures n <= |Actions(alert, group)|
    ensures Picks(own, Actions(alert, group)[..n], alert.annotations, Both(IsLink, IsAction))
    ensures Picks(shared, Actions(alert, group)[n..], group.shared.annotations, Both(IsLink, IsAction))
  {
    var r := Actions(alert, group);
    n := |LinkActions(alert.annotations)|;
    assert r[..n] == LinkActions(alert.annotations);
    assert r[n..] == LinkActions(group.shared.annotations);
    KeepKeep(alert.annotations, IsLink, IsAction);
    KeepKeep(group.shared.annotations, IsLink, IsAction);
    own := KeepPositions(alert.annotations, Both(IsLink, IsAction));
    shared := KeepPositions(group.shared.annotations, Both(IsLink, IsAction));
  }

  /** `alert.alertmanager.map((am) => am.cluster)`. */
  function AlertClusters(alert: Alert): seq<string> {
    MapSeq(alert.alertmanager, ClusterOf)
  }

  /**
   * The cluster map handed to the silence form: every writable cluster,
   * with its members, that one of the alert's alertmanagers belongs to.
   */
  method SilenceFormClusters(clustersWithoutReadOnly: map<string, seq<string>>, alert: Alert)
    returns (clusters: map<string, seq<string>>)
    ensures forall c :: c in clusters <==>
      c in clustersWithoutReadOnly && exists i :: 0 <= i < |alert.alertmanager| && alert.alertmanager[i].cluster == c
    ensures forall c :: c in clusters ==> clusters[c] == clustersWithoutReadOnly[c]
  {
    clusters := map[];
    var pending := clustersWithoutReadOnly.Keys;
    while pending != {}
      invariant pending <= clustersWithoutReadOnly.Keys
      invariant forall c :: c in clusters <==>
        c in clustersWithoutReadOnly && c !in pending && c in AlertClusters(alert)
      invariant forall c :: c in clusters ==> clusters[c] == clustersWithoutReadOnly[c]
      decreases |pending|
    {
      var cluster :| cluster in pending;
      var members := clustersWithoutReadOnly[cluster];
      if cluster in AlertClusters(alert) {
        clusters := clusters[cluster := members];
      }
      pending := pending - {cluster};
    }
    forall c | c in clustersWithoutReadOnly
      ensures c in AlertClusters(alert) <==>
        exists i :: 0 <= i < |alert.alertmanager| && alert.alertmanager[i].cluster == c
    {
      if c in AlertClusters(alert) {
        var i :| 0 <= i < |AlertClusters(alert)| && AlertClusters(alert)[i] == c;
      }
      if exists i :: 0 <= i < |alert.alertmanager| && alert.alertmanager[i].cluster == c {
        var i :| 0 <= i < |alert.alertmanager| && alert.alertmanager[i].cluster == c;
        assert AlertClusters(alert)[i] == c;
      }
    }
  }

  /** The silence item is greyed out when no cluster is writable. */
  function SilenceItemDisabled(clustersWithoutReadOnly: map<string, seq<string>>): (r: bool)
    ensures r <==> clustersWithoutReadOnly == map[]
  {
    |clustersWithoutReadOnly| == 0
  }

  /**
   * A click on the silence item: when it is disabled nothing happens
   * (`None`); otherwise the form is opened with the alert's writable
   * clusters.
   */
  method ClickSilenceItem(clustersWithoutReadOnly: map<string, seq<string>>, alert: Alert)
    returns (form: Option<map<string, seq<string>>>)
    ensures form == None <==> SilenceItemDisabled(clustersWithoutReadOnly)
    ensures form.Some? ==> forall c :: c in form.value <==>
      c in clustersWithoutReadOnly && exists i :: 0 <= i < |alert.alertmanager| && alert.alertmanager[i].cluster == c
    ensures form.Some? ==> forall c :: c in form.value ==> form.value[c] == clustersWithoutReadOnly[c]
  {
    if |clustersWithoutReadOnly| != 0 {
      var clusters := SilenceFormClusters(clustersWithoutReadOnly, alert);
      form := Some(clusters);
    } else {
      form := None;
    }
  }
}
