/** The two tables the dashboard reads and the joined row it displays. */
module Sites {
  import opened Wrappers

  /** A calendar date; its parsing and ISO formatting are not modelled. */
  datatype Date = Date(year: int, month: int, day: int)

  /** A row of the sites table. Power is a whole number of kWc, absent when null. */
  datatype Site = Site(
    id: int,
    name: Option<string>,
    code: Option<string>,
    nominalPower: Option<int>,
    address: Option<string>,
    commissionDate: Option<Date>,
    clientMapId: Option<int>,
    ignoreSite: bool)

  /** A row of the clients table (the name column is nullable). */
  datatype ClientRow = ClientRow(id: int, name: Option<string>)

  /** The client lookup: client id to client name. */
  type ClientMap = map<int, Option<string>>

  /** A site with its resolved client name, one row of the displayed table. */
  datatype SiteView = SiteView(site: Site, clientName: string)

  /** Name shown for a site whose client cannot be resolved. */
  const Unassigned: string := "Non assigné"

  /** Client selector entry that disables the client filter. */
  const AllClients: string := "Tous"

  /** A missing power counts as 0 wherever the dashboard computes with power. */
  function EffectivePower(p: Option<int>): int
  {
    p.GetOr(0)
  }
}
