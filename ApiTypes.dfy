/**
 * The parts of the API payload types (alerts, their alertmanager states,
 * annotations and the group's shared data) that the alert view reads.
 * Fields the view only renders (labels, receiver, start time) are omitted.
 */
module ApiTypes {

  /** An annotation of an alert or of a group; links and actions are flagged. */
  datatype Annotation = Annotation(
    name: string,
    value: string,
    visible: bool,
    isLink: bool,
    isAction: bool)

  /** One alertmanager's view of an alert. */
  datatype AlertmanagerState = AlertmanagerState(
    name: string,
    cluster: string,
    source: string,
    inhibitedBy: seq<string>,
    silencedBy: seq<string>)

  datatype Alert = Alert(
    state: string,
    annotations: seq<Annotation>,
    alertmanager: seq<AlertmanagerState>)

  /**
   * What every alert of a group has in common: annotations, clusters, and
   * per cluster the silence IDs that silence the whole group.
   */
  datatype Shared = Shared(
    annotations: seq<Annotation>,
    clusters: seq<string>,
    silences: map<string, seq<string>>)

  datatype AlertGroup = AlertGroup(shared: Shared)

  function ClusterOf(am: AlertmanagerState): string {
    am.cluster
  }

  function IsLink(a: Annotation): bool {
    a.isLink
  }

  function IsAction(a: Annotation): bool {
    a.isAction
  }

  function IsNotLink(a: Annotation): bool {
    !a.isLink
  }

  function IsNotAction(a: Annotation): bool {
    !a.isAction
  }
}
