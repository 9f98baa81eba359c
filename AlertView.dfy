/**
 * What the alert row computes before rendering: the border colour, the
 * clusters, inhibiting fingerprints and per-cluster silences gathered
 * from the alert's alertmanagers, and which annotations and cluster
 * labels are shown.
 */
module AlertView {
  import opened Seqs
  import opened ApiTypes

  const DefaultBorderClass: string := "border-default"

  /**
   * The border class for the alert's state: the class the colour map
   * gives, or the default when it gives none (a missing or empty entry).
   */
  function BorderClass(state: string, borderClassMap: map<string, string>): (r: string)
    ensures r != ""
    ensures state in borderClassMap && borderClassMap[state] != "" ==> r == borderClassMap[state]
    ensures !(state in borderClassMap && borderClassMap[state] != "") ==> r == DefaultBorderClass
  {
    if state in borderClassMap && borderClassMap[state] != "" then borderClassMap[state]
    else DefaultBorderClass
  }

  // ---------------------------------------------------------------------
  // the loop over the alert's alertmanagers

  /** The silence IDs shown for one alertmanager's cluster, and the alertmanager itself. */
  datatype ClusterSilences = ClusterSilences(alertmanager: AlertmanagerState, silences: seq<string>)

  /** Whether a silence ID silences the whole group in this cluster. */
  function NotSharedSilence(shared: map<string, seq<string>>, cluster: string): string -> bool {
    (id: string) => !(cluster in shared && id in shared[cluster])
  }

  /**
   * The alertmanager's silences that the group does not share in its
   * cluster, each once, in order of first appearance.
   */
  function OwnSilences(am: AlertmanagerState, group: AlertGroup): seq<string> {
    Dedup(Keep(am.silencedBy, NotSharedSilence(group.shared.silences, am.cluster)))
  }

  /**
   * The silences shown for an alertmanager are the ones it lists that the
   * group does not share in its cluster, and none of them twice.
   */
  lemma OwnSilencesExact(am: AlertmanagerState, group: AlertGroup)
    ensures NoDup(OwnSilences(am, group))
    ensures forall id :: id in OwnSilences(am, group) <==>
      id in am.silencedBy &&
      !(am.cluster in group.shared.silences && id in group.shared.silences[am.cluster])
    ensures forall i, j :: 0 <= i < j < |OwnSilences(am, group)| ==>
      FirstIndex(Keep(am.silencedBy, NotSharedSilence(group.shared.silences, am.cluster)), OwnSilences(am, group)[i]) <
      FirstIndex(Keep(am.silencedBy, NotSharedSilence(group.shared.silences, am.cluster)), OwnSilences(am, group)[j])
  {
    var kept := Keep(am.silencedBy, NotSharedSilence(group.shared.silences, am.cluster));
    DedupSpec(kept);
    KeepMembers(am.silencedBy, NotSharedSilence(group.shared.silences, am.cluster));
    DedupFirstAppearance(kept);
  }

  function Entry(am: AlertmanagerState, group: AlertGroup): ClusterSilences {
    ClusterSilences(am, OwnSilences(am, group))
  }

  /** The clusters of the alertmanagers, once each, in order of first appearance. */
  function Clusters(ams: seq<AlertmanagerState>): seq<string> {
    Dedup(MapSeq(ams, ClusterOf))
  }

  /** All inhibiting fingerprints of the alertmanagers, one list after the other. */
  function Fingerprints(ams: seq<AlertmanagerState>): seq<string> {
    if ams == [] then [] else Fingerprints(ams[..|ams| - 1]) + ams[|ams| - 1].inhibitedBy
  }

  /** A fingerprint is collected exactly when some alertmanager lists it. */
  lemma {:induction false} FingerprintsMembers(ams: seq<AlertmanagerState>, x: string)
    ensures x in Fingerprints(ams) <==> exists i :: 0 <= i < |ams| && x in ams[i].inhibitedBy
  {
    if ams != [] {
      var p := ams[..|ams| - 1];
      FingerprintsMembers(p, x);
      assert forall i :: 0 <= i < |p| ==> p[i] == ams[i];
    }
  }

  /** The inhibiting fingerprints, once each, in order of first appearance. */
  function InhibitedBy(ams: seq<AlertmanagerState>): seq<string> {
    Dedup(Fingerprints(ams))
  }

  /**
   * The property names every plain JavaScript object inherits from
   * `Object.prototype`. Looking one of them up on the empty object `{}`
   * gives a function (or, for `__proto__`, the prototype object), which is
   * truthy.
   */
  const InheritedNames: set<string> := {
    "constructor", "__proto__", "toString", "toLocaleString", "valueOf",
    "hasOwnProperty", "isPrototypeOf", "propertyIsEnumerable",
    "__defineGetter__", "__defineSetter__", "__lookupGetter__", "__lookupSetter__"
  }

  /**
   * Whether `silences[cluster]` is truthy on the silence object: an entry
   * stored under that name, or an inherited property.
   */
  predicate HasEntry(silences: map<string, ClusterSilences>, cluster: string) {
    cluster in silences || cluster in InheritedNames
  }

  /**
   * The silence map: for each cluster, the entry built from the first
   * alertmanager of that cluster; a cluster named like an inherited
   * property never gets one, since the lookup already finds that property.
   */
  function SilenceMap(ams: seq<AlertmanagerState>, group: AlertGroup): map<string, ClusterSilences> {
    if ams == [] then map[]
    else
      var am := ams[|ams| - 1];
      var m := SilenceMap(ams[..|ams| - 1], group);
      if HasEntry(m, am.cluster) then m else m[am.cluster := Entry(am, group)]
  }

  /**
   * The silence map has a key for every alertmanager's cluster that is not
   * an inherited property name, and no other.
   */
  lemma {:induction false} SilenceMapKeys(ams: seq<AlertmanagerState>, group: AlertGroup, c: string)
    ensures c in SilenceMap(ams, group) <==>
      c !in InheritedNames && exists i :: 0 <= i < |ams| && ams[i].cluster == c
  {
    if ams != [] {
      var p := ams[..|ams| - 1];
      SilenceMapKeys(p, group, c);
      assert forall i :: 0 <= i < |p| ==> p[i] == ams[i];
    }
  }

  /**
   * The entry of a cluster is built from the first alertmanager of that
   * cluster; a cluster named like an inherited property has none.
   */
  lemma {:induction false} SilenceMapFirstWins(ams: seq<AlertmanagerState>, group: AlertGroup, i: nat)
    requires i < |ams|
    requires forall j :: 0 <= j < i ==> ams[j].cluster != ams[i].cluster
    ensures ams[i].cluster in SilenceMap(ams, group) <==> ams[i].cluster !in InheritedNames
    ensures ams[i].cluster !in InheritedNames ==> SilenceMap(ams, group)[ams[i].cluster] == Entry(ams[i], group)
  {
    SilenceMapKeys(ams, group, ams[i].cluster);
    if ams[i].cluster !in InheritedNames {
      var p := ams[..|ams| - 1];
      if i < |ams| - 1 {
        assert p[i] == ams[i];
        SilenceMapFirstWins(p, group, i);
      } else {
        SilenceMapKeys(p, group, ams[i].cluster);
        assert forall j :: 0 <= j < |p| ==> p[j].cluster != ams[i].cluster;
      }
    }
  }

  /** Alertmanagers seen later never change an entry that is already there. */
  lemma {:induction false} SilenceMapStable(
    ams: seq<AlertmanagerState>, more: seq<AlertmanagerState>, group: AlertGroup, c: string)
    requires c in SilenceMap(ams, group)
    ensures c in SilenceMap(ams + more, group)
    ensures SilenceMap(ams + more, group)[c] == SilenceMap(ams, group)[c]
  {
    if more != [] {
      var all := ams + more;
      var front := more[..|more| - 1];
      assert all[..|all| - 1] == ams + front;
      SilenceMapStable(ams, front, group, c);
      var m := SilenceMap(ams + front, group);
      assert c in m;
      var last := all[|all| - 1];
      assert SilenceMap(all, group) == if HasEntry(m, last.cluster) then m else m[last.cluster := Entry(last, group)];
    } else {
      assert ams + more == ams;
    }
  }

  /**
   * The loop of the alert row over `alert.alertmanager`: collects the
   * clusters and the inhibiting fingerprints, skipping ones already
   * collected, and records each cluster's silences the first time the
   * cluster comes up.
   */
  method CollectAlertmanagers(alert: Alert, group: AlertGroup)
    returns (clusters: seq<string>, inhibitedBy: seq<string>, silences: map<string, ClusterSilences>)
    ensures clusters == Clusters(alert.alertmanager)
    ensures inhibitedBy == InhibitedBy(alert.alertmanager)
    ensures silences == SilenceMap(alert.alertmanager, group)
  {
    var ams := alert.alertmanager;
    clusters, inhibitedBy, silences := [], [], map[];
    var i := 0;
    assert ams[..i] == [];
    while i < |ams|
      invariant 0 <= i <= |ams|
      invariant clusters == Dedup(MapSeq(ams[..i], ClusterOf))
      invariant inhibitedBy == Dedup(Fingerprints(ams[..i]))
      invariant silences == SilenceMap(ams[..i], group)
    {
      var am := ams[i];
      PrefixStep(ams, i, group);
      if am.cluster !in clusters {
        clusters := clusters + [am.cluster];
      }
      inhibitedBy := AddFingerprints(inhibitedBy, Fingerprints(ams[..i]), am.inhibitedBy);
      if !HasEntry(silences, am.cluster) {
        silences := silences[am.cluster := Entry(am, group)];
      }
      i := i + 1;
    }
    assert ams[..i] == ams;
  }

  /**
   * The inner loop over one alertmanager's `inhibitedBy`: appends each
   * fingerprint not collected yet.
   */
  method AddFingerprints(collected: seq<string>, ghost before: seq<string>, fingerprints: seq<string>)
    returns (r: seq<string>)
    requires collected == Dedup(before)
    ensures r == Dedup(before + fingerprints)
  {
    r := collected;
    var j := 0;
    assert before + fingerprints[..j] == before;
    while j < |fingerprints|
      invariant 0 <= j <= |fingerprints|
      invariant r == Dedup(before + fingerprints[..j])
    {
      var fingerprint := fingerprints[j];
      AppendOneMore(before, fingerprints, j);
      if fingerprint !in r {
        r := r + [fingerprint];
      }
      j := j + 1;
    }
    assert fingerprints[..j] == fingerprints;
  }

  /** What one more alertmanager adds to each of the three collections. */
  lemma PrefixStep(ams: seq<AlertmanagerState>, i: nat, group: AlertGroup)
    requires i < |ams|
    ensures Dedup(MapSeq(ams[..i + 1], ClusterOf)) ==
      if ams[i].cluster in Dedup(MapSeq(ams[..i], ClusterOf)) then Dedup(MapSeq(ams[..i], ClusterOf))
      else Dedup(MapSeq(ams[..i], ClusterOf)) + [ams[i].cluster]
    ensures Fingerprints(ams[..i + 1]) == Fingerprints(ams[..i]) + ams[i].inhibitedBy
    ensures SilenceMap(ams[..i + 1], group) ==
      if HasEntry(SilenceMap(ams[..i], group), ams[i].cluster) then SilenceMap(ams[..i], group)
      else SilenceMap(ams[..i], group)[ams[i].cluster := Entry(ams[i], group)]
  {
    assert ams[..i + 1][..i] == ams[..i];
    assert MapSeq(ams[..i + 1], ClusterOf) == MapSeq(ams[..i], ClusterOf) + [ams[i].cluster];
    DedupSnoc(MapSeq(ams[..i], ClusterOf), ams[i].cluster);
  }

  /** One step of the inner loop over an alertmanager's fingerprints. */
  lemma AppendOneMore(before: seq<string>, fps: seq<string>, j: nat)
    requires j < |fps|
    ensures Dedup(before + fps[..j + 1]) ==
      if fps[j] in Dedup(before + fps[..j]) then Dedup(before + fps[..j])
      else Dedup(before + fps[..j]) + [fps[j]]
  {
    assert before + fps[..j + 1] == (before + fps[..j]) + [fps[j]];
    DedupSnoc(before + fps[..j], fps[j]);
  }

  /** `clusters` names every alertmanager's cluster exactly once, in order of first appearance. */
  lemma ClustersExact(ams: seq<AlertmanagerState>)
    ensures NoDup(Clusters(ams))
    ensures forall c :: c in Clusters(ams) <==> exists i :: 0 <= i < |ams| && ams[i].cluster == c
    ensures forall i, j :: 0 <= i < j < |Clusters(ams)| ==>
      FirstIndex(MapSeq(ams, ClusterOf), Clusters(ams)[i]) < FirstIndex(MapSeq(ams, ClusterOf), Clusters(ams)[j])
  {
    var names := MapSeq(ams, ClusterOf);
    DedupSpec(names);
    DedupFirstAppearance(names);
    forall c | c in Clusters(ams) ensures exists i :: 0 <= i < |ams| && ams[i].cluster == c {
      var i :| 0 <= i < |names| && names[i] == c;
    }
    forall c | exists i :: 0 <= i < |ams| && ams[i].cluster == c ensures c in Clusters(ams) {
      var i :| 0 <= i < |ams| && ams[i].cluster == c;
      assert names[i] == c;
    }
  }

  /**
   * `inhibitedBy` holds every fingerprint of every alertmanager exactly
   * once, in order of first appearance.
   */
  lemma InhibitedByExact(ams: seq<AlertmanagerState>)
    ensures NoDup(InhibitedBy(ams))
    ensures forall x :: x in InhibitedBy(ams) <==> exists i :: 0 <= i < |ams| && x in ams[i].inhibitedBy
    ensures forall i, j :: 0 <= i < j < |InhibitedBy(ams)| ==>
      FirstIndex(Fingerprints(ams), InhibitedBy(ams)[i]) < FirstIndex(Fingerprints(ams), InhibitedBy(ams)[j])
  {
    DedupSpec(Fingerprints(ams));
    DedupFirstAppearance(Fingerprints(ams));
    forall x ensures x in InhibitedBy(ams) <==> exists i :: 0 <= i < |ams| && x in ams[i].inhibitedBy {
      FingerprintsMembers(ams, x);
    }
  }

  // ---------------------------------------------------------------------
  // what is shown

  function ShownWhen(showOnlyExpandedAnnotations: bool): Annotation -> bool {
    (a: Annotation) => a.visible || !showOnlyExpandedAnnotations
  }

  /** The non-link annotations shown in the alert body. */
  function NonLinkAnnotations(annotations: seq<Annotation>, showOnlyExpandedAnnotations: bool): seq<Annotation> {
    Keep(Keep(annotations, IsNotLink), ShownWhen(showOnlyExpandedAnnotations))
  }

  /**
   * A non-link annotation is shown exactly when it is not a link and it is
   * visible or not only the expanded ones are shown; those shown keep
   * their order.
   */
  lemma NonLinkAnnotationsExact(annotations: seq<Annotation>, showOnlyExpandedAnnotations: bool)
    returns (idx: seq<nat>)
    ensures Picks(idx, NonLinkAnnotations(annotations, showOnlyExpandedAnnotations), annotations,
                  Both(IsNotLink, ShownWhen(showOnlyExpandedAnnotations)))
    ensures forall j :: 0 <= j < |annotations| ==>
      (j in idx <==> !annotations[j].isLink && (annotations[j].visible || !showOnlyExpandedAnnotations))
  {
    KeepKeep(annotations, IsNotLink, ShownWhen(showOnlyExpandedAnnotations));
    idx := KeepPositions(annotations, Both(IsNotLink, ShownWhen(showOnlyExpandedAnnotations)));
    forall j | 0 <= j < |annotations|
      ensures Both(IsNotLink, ShownWhen(showOnlyExpandedAnnotations))(annotations[j]) ==
        (!annotations[j].isLink && (annotations[j].visible || !showOnlyExpandedAnnotations))
    {
    }
  }

  /** The link annotations rendered after the labels. */
  function LinkAnnotations(annotations: seq<Annotation>): seq<Annotation> {
    Keep(Keep(annotations, IsLink), IsNotAction)
  }

  /** Rendered links are exactly the links that are not actions, in order. */
  lemma LinkAnnotationsExact(annotations: seq<Annotation>) returns (idx: seq<nat>)
    ensures Picks(idx, LinkAnnotations(annotations), annotations, Both(IsLink, IsNotAction))
    ensures forall j :: 0 <= j < |annotations| ==>
      (j in idx <==> annotations[j].isLink && !annotations[j].isAction)
  {
    KeepKeep(annotations, IsLink, IsNotAction);
    idx := KeepPositions(annotations, Both(IsLink, IsNotAction));
    forall j | 0 <= j < |annotations|
      ensures Both(IsLink, IsNotAction)(annotations[j]) == (annotations[j].isLink && !annotations[j].isAction)
    {
      assert IsLink(annotations[j]) == annotations[j].isLink;
      assert IsNotAction(annotations[j]) == !annotations[j].isAction;
    }
  }

  function NotIn(shared: seq<string>): string -> bool {
    (c: string) => c !in shared
  }

  /**
   * The per-alert cluster labels: shown only when more than one upstream
   * cluster is known, and then for the alert's clusters the group does not
   * share.
   */
  function ClusterLabels(upstreamClusters: map<string, seq<string>>, clusters: seq<string>, group: AlertGroup)
    : (r: seq<string>)
    ensures |upstreamClusters| <= 1 ==> r == []
    ensures forall c :: c in r <==> |upstreamClusters| > 1 && c in clusters && c !in group.shared.clusters
    ensures NoDup(clusters) ==> NoDup(r)
  {
    if |upstreamClusters| > 1 then
      KeepMembers(clusters, NotIn(group.shared.clusters));
      var r := Keep(clusters, NotIn(group.shared.clusters));
      assert NoDup(clusters) ==> NoDup(r) by {
        if NoDup(clusters) {
          KeepNoDup(clusters, NotIn(group.shared.clusters));
        }
      }
      r
    else []
  }
}
