/** Building the client lookup from the fetched client rows and joining it onto the sites. */
module Assembly {
  import opened Wrappers
  import opened Sites
  import opened Collections

  function ClientEntries(rows: seq<ClientRow>): seq<(int, Option<string>)>
  {
    seq(|rows|, i requires 0 <= i < |rows| => (rows[i].id, rows[i].name))
  }

  /** `{c["id"]: c["name"] for c in rows}`. */
  function ClientsById(rows: seq<ClientRow>): ClientMap
  {
    DictOf(ClientEntries(rows))
  }

  /** Every fetched id is a key, nothing else is, and a key maps to the name of the last row
      carrying that id. */
  lemma ClientsByIdSpec(rows: seq<ClientRow>)
    ensures forall k :: k in ClientsById(rows) <==> exists i :: 0 <= i < |rows| && rows[i].id == k
    ensures forall i :: 0 <= i < |rows| && (forall j :: i < j < |rows| ==> rows[j].id != rows[i].id) ==>
      rows[i].id in ClientsById(rows) && ClientsById(rows)[rows[i].id] == rows[i].name
  {
    var e := ClientEntries(rows);
    forall k ensures k in ClientsById(rows) <==> exists i :: 0 <= i < |rows| && rows[i].id == k {
      DictOfKeys(e, k);
      if k in ClientsById(rows) {
        var i :| 0 <= i < |e| && e[i].0 == k;
        assert rows[i].id == k;
      }
      if exists i :: 0 <= i < |rows| && rows[i].id == k {
        var i :| 0 <= i < |rows| && rows[i].id == k;
        assert e[i].0 == k;
      }
    }
    forall i | 0 <= i < |rows| && (forall j :: i < j < |rows| ==> rows[j].id != rows[i].id)
      ensures rows[i].id in ClientsById(rows) && ClientsById(rows)[rows[i].id] == rows[i].name
    {
      DictOfLastWins(e, i);
    }
  }

  /** `clients.get(id)`, with a missing id, an unknown id and a null name all shown as
      "Non assigné" (the `map` then `fillna` of a pandas column). */
  function ClientName(clientMapId: Option<int>, clients: ClientMap): string
  {
    match clientMapId
    case None => Unassigned
    case Some(k) => if k in clients then clients[k].GetOr(Unassigned) else Unassigned
  }

  /** The joined table: each site with its client name, in the fetched order. */
  function Assemble(sites: seq<Site>, clients: ClientMap): seq<SiteView>
  {
    if sites == [] then []
    else Assemble(sites[..|sites| - 1], clients) + [SiteView(sites[|sites| - 1], ClientName(sites[|sites| - 1].clientMapId, clients))]
  }

  /** The join is total and shape-preserving: one view per site, same order, and the client
      name is the looked-up name exactly when the id resolves to a non-null name. */
  lemma {:induction false} AssembleSpec(sites: seq<Site>, clients: ClientMap)
    ensures |Assemble(sites, clients)| == |sites|
    ensures forall i :: 0 <= i < |sites| ==> Assemble(sites, clients)[i].site == sites[i]
    ensures forall i, k, n :: 0 <= i < |sites| && sites[i].clientMapId == Some(k) && k in clients && clients[k] == Some(n) ==>
      Assemble(sites, clients)[i].clientName == n
    ensures forall i :: 0 <= i < |sites| && (sites[i].clientMapId.None? || sites[i].clientMapId.value !in clients || clients[sites[i].clientMapId.value].None?) ==>
      Assemble(sites, clients)[i].clientName == Unassigned
  {
    if sites != [] {
      AssembleSpec(sites[..|sites| - 1], clients);
    }
  }
}
