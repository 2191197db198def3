/** The deployments table of components/columns/deployments-columns.tsx:
    its columns in order and what each cell shows for one deployment. */
module DeploymentColumns {
  import opened Wrappers
  import opened Text
  import opened Types
  import ProjectCard

  const ShortIdLength: nat := 6
  const DomainHostSuffix: string := ".d.nikhilsaiankilla.blog/"
  const Dash: string := "-"

  /** `id.slice(-6)`: the last six characters, or the whole id when shorter. */
  function ShortId(id: string): (r: string)
    ensures |r| == if |id| < ShortIdLength then |id| else ShortIdLength
    ensures r == id[|id| - |r|..]
  {
    if |id| <= ShortIdLength then id else id[|id| - ShortIdLength..]
  }

  /** A deployment's address, `https://<subDomain>.d.nikhilsaiankilla.blog/`. */
  function DomainUrl(subDomain: string): (r: string)
    ensures StartsWith(r, "https://") && |r| == |subDomain| + 8 + |DomainHostSuffix|
    ensures r[8..8 + |subDomain|] == subDomain
  {
    "https://" + subDomain + DomainHostSuffix
  }

  /** The deployment host is the project's live host one label deeper. */
  lemma DomainIsLiveOfD(subDomain: string)
    ensures DomainUrl(subDomain) == ProjectCard.LiveUrl(subDomain + ".d")
  {
    assert DomainHostSuffix == ".d" + ProjectCard.LiveHostSuffix;
  }

  /** So the table never links the same address as the project card. */
  lemma DomainDiffersFromLive(subDomain: string)
    ensures DomainUrl(subDomain) != ProjectCard.LiveUrl(subDomain)
  {
    assert |DomainUrl(subDomain)| != |ProjectCard.LiveUrl(subDomain)|;
  }

  /** Distinct deployments link distinct addresses. */
  lemma DomainUrlInjective(a: string, b: string)
    requires DomainUrl(a) == DomainUrl(b)
    ensures a == b
  {
    FramedInjective("https://", a, b, DomainHostSuffix);
  }

  /** The columns, as (accessor key, header), in table order. */
  const Columns: seq<(string, string)> := [
    ("_id", "Deployment ID"),
    ("state", "Status"),
    ("projectName", "Project Name"),
    ("subDomain", "Domain"),
    ("updatedAt", "Last Updated")
  ]

  /** The row a deployment is shown from; `updatedAt` is `None` when absent. */
  datatype Deployment = Deployment(
    id: string, projectId: string, projectName: string, subDomain: string,
    state: DeploymentState, createdAt: string, updatedAt: Option<string>)

  /** What one cell shows. `LocalTime` carries the raw time that
      `toLocaleString` formats; the formatting is not modelled. */
  datatype Cell =
    | IdCell(shortId: string)
    | StateCell(state: DeploymentState)
    | NameCell(name: string)
    | DomainCell(href: string)
    | LocalTime(at: string)
    | DashCell

  /** The "Last Updated" cell: "-" when the time is absent. */
  function UpdatedCell(updatedAt: Option<string>): (c: Cell)
    ensures c == DashCell <==> updatedAt.None? || updatedAt.value == []
    ensures c != DashCell ==> c == LocalTime(updatedAt.value)
  {
    if updatedAt.Some? && updatedAt.value != [] then LocalTime(updatedAt.value) else DashCell
  }

  /** The cells of one row, one per column and in column order; the state is
      handed to the badge unchanged. */
  function Row(d: Deployment): (cells: seq<Cell>)
    ensures |cells| == |Columns|
    ensures cells[0] == IdCell(ShortId(d.id)) && cells[1] == StateCell(d.state)
    ensures cells[2] == NameCell(d.projectName) && cells[3] == DomainCell(DomainUrl(d.subDomain))
    ensures cells[4] == UpdatedCell(d.updatedAt)
  {
    [IdCell(ShortId(d.id)), StateCell(d.state), NameCell(d.projectName),
     DomainCell(DomainUrl(d.subDomain)), UpdatedCell(d.updatedAt)]
  }
}
