/** Shared record types of the dashboard (types.ts). */
module Types {

  /** The lifecycle states a deployment can be reported in (types.ts:17-23). */
  datatype DeploymentState = Queued | NotStarted | InProgress | Ready | Failed

  /** The string value each enum member carries on the wire. */
  function StateName(s: DeploymentState): (r: string)
    ensures r != []
  {
    match s
    case Queued => "queued"
    case NotStarted => "not started"
    case InProgress => "in progress"
    case Ready => "ready"
    case Failed => "failed"
  }
}
