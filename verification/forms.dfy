/** The edit and add forms: the edit selector's labels, the values the edit form starts from,
    and the payloads the two forms send to the store. */
module Forms {
  import opened Wrappers
  import opened Sites
  import opened Collections
  import opened IntText
  import opened Filters

  /** `str(x)` of a nullable text field inside an f-string. */
  function TextOf(x: Option<string>): string
  {
    match x
    case Some(s) => s
    case None => "None"
  }

  /** The edit selector's label of a site: `"<name> (<code>)"`. */
  function Label(v: SiteView): string
  {
    TextOf(v.site.name) + " (" + TextOf(v.site.code) + ")"
  }

  function LabelEntries(shown: seq<SiteView>): seq<(string, SiteView)>
  {
    seq(|shown|, i requires 0 <= i < |shown| => (Label(shown[i]), shown[i]))
  }

  /** `{label(s): s for s in shown}`: the sites the edit tab offers, by label. */
  function EditChoices(shown: seq<SiteView>): map<string, SiteView>
  {
    DictOf(LabelEntries(shown))
  }

  /** The edit selector offers one label per distinct label of the shown rows; each label
      stands for the last shown row carrying it; there is nothing to edit exactly when no row
      is shown. */
  lemma EditChoicesSpec(shown: seq<SiteView>)
    ensures forall l :: l in EditChoices(shown) <==> exists i :: 0 <= i < |shown| && Label(shown[i]) == l
    ensures forall l :: l in EditChoices(shown) ==> EditChoices(shown)[l] in shown && Label(EditChoices(shown)[l]) == l
    ensures forall i :: 0 <= i < |shown| && (forall j :: i < j < |shown| ==> Label(shown[j]) != Label(shown[i])) ==>
      EditChoices(shown)[Label(shown[i])] == shown[i]
    ensures EditChoices(shown) == map[] <==> shown == []
  {
    var e := LabelEntries(shown);
    forall l ensures l in EditChoices(shown) <==> exists i :: 0 <= i < |shown| && Label(shown[i]) == l {
      DictOfKeys(e, l);
      if l in EditChoices(shown) {
        var i :| 0 <= i < |e| && e[i].0 == l;
        assert Label(shown[i]) == l;
      }
      if exists i :: 0 <= i < |shown| && Label(shown[i]) == l {
        var i :| 0 <= i < |shown| && Label(shown[i]) == l;
        assert e[i].0 == l;
      }
    }
    forall l | l in EditChoices(shown) ensures EditChoices(shown)[l] in shown && Label(EditChoices(shown)[l]) == l {
      DictOfFromEntry(e, l);
    }
    forall i | 0 <= i < |shown| && (forall j :: i < j < |shown| ==> Label(shown[j]) != Label(shown[i]))
      ensures EditChoices(shown)[Label(shown[i])] == shown[i]
    {
      DictOfLastWins(e, i);
    }
    if shown != [] {
      DictOfKeys(e, Label(shown[0]));
      assert e[0].0 == Label(shown[0]);
    }
  }

  /** The site picked in the edit tab is one of the table's rows and satisfies the sidebar
      filters. */
  lemma EditedSiteIsShown(views: seq<SiteView>, selector: string, lo: int, hi: int, l: string)
    requires l in EditChoices(Filtered(views, selector, lo, hi))
    ensures EditChoices(Filtered(views, selector, lo, hi))[l] in views
    ensures Selected(EditChoices(Filtered(views, selector, lo, hi))[l], selector, lo, hi)
  {
    var shown := Filtered(views, selector, lo, hi);
    EditChoicesSpec(shown);
    FilteredMembership(views, selector, lo, hi, EditChoices(shown)[l]);
  }

  /** The values typed into the edit form. */
  datatype EditForm = EditForm(name: string, code: string, power: int, address: string, date: Option<Date>)

  /** The edit form's initial values: each text field `or ""`, the power `or 0`. */
  function EditDefaults(s: Site): EditForm
  {
    EditForm(s.name.GetOr(""), s.code.GetOr(""), EffectivePower(s.nominalPower), s.address.GetOr(""), s.commissionDate)
  }

  /** The update the edit form sends: five columns, every one of them set. */
  datatype UpdateData = UpdateData(name: string, code: string, nominalPower: int, address: string, commissionDate: Option<Date>)

  function UpdatePayload(f: EditForm): UpdateData
  {
    UpdateData(f.name, f.code, f.power, f.address, f.date)
  }

  /** The stored site after an update of its row with `d`. */
  function ApplyUpdate(s: Site, d: UpdateData): (r: Site)
    ensures r.id == s.id && r.clientMapId == s.clientMapId && r.ignoreSite == s.ignoreSite
    ensures r.name == Some(d.name) && r.code == Some(d.code) && r.nominalPower == Some(d.nominalPower)
    ensures r.address == Some(d.address) && r.commissionDate == d.commissionDate
  {
    s.(name := Some(d.name), code := Some(d.code), nominalPower := Some(d.nominalPower),
       address := Some(d.address), commissionDate := d.commissionDate)
  }

  /** Saving the edit form without touching it leaves the site unchanged exactly when none of
      its name, code, power and address is null; a null one is written back as "" or 0. */
  lemma UntouchedEditIsNoOp(s: Site)
    ensures ApplyUpdate(s, UpdatePayload(EditDefaults(s))) == s <==>
      s.name.Some? && s.code.Some? && s.nominalPower.Some? && s.address.Some?
  {
  }

  /** The values typed into the add form; `client` is the selector's string ("" for none). */
  datatype AddForm = AddForm(name: string, code: string, power: int, address: string, date: Option<Date>, client: string)

  /** The insert the add form sends: every column but the id, nulls allowed. */
  datatype InsertData = InsertData(
    name: string,
    code: Option<string>,
    nominalPower: Option<int>,
    address: Option<string>,
    commissionDate: Option<Date>,
    clientMapId: Option<int>)

  datatype AddError =
    | NameRequired             // "Le nom est obligatoire."
    | ClientChoiceNotANumber   // `int(...)` raises on the client choice

  /** `s or None` on a text field. */
  function NoneIfEmpty(s: string): Option<string>
  {
    if s == "" then None else Some(s)
  }

  /** The strings the add form's client selector offers: "" and `str(id)` for every client. */
  function ClientChoices(clients: ClientMap): set<string>
  {
    {""} + set k | k in clients :: IntToString(k)
  }

  /** Validation and payload of the add form. */
  function AddPayload(f: AddForm): Result<InsertData, AddError>
  {
    if f.name == "" then Err(NameRequired)
    else if f.client != "" && ParseInt(f.client).None? then Err(ClientChoiceNotANumber)
    else Ok(InsertData(
      f.name,
      NoneIfEmpty(f.code),
      if f.power == 0 then None else Some(f.power),
      NoneIfEmpty(f.address),
      f.date,
      if f.client == "" then None else Some(ParseInt(f.client).value)))
  }

  /** An empty name is refused; otherwise, for a client chosen from the selector, the insert
      carries the name unchanged, null for an empty code or address or a zero power, and the
      chosen client's id, or null when none is chosen. */
  lemma AddPayloadSpec(f: AddForm, clients: ClientMap)
    requires f.client in ClientChoices(clients)
    ensures AddPayload(f).Err? <==> f.name == ""
    ensures AddPayload(f).Err? ==> AddPayload(f).error == NameRequired
    ensures AddPayload(f).Ok? ==>
      var d := AddPayload(f).value;
      && d.name == f.name
      && (d.code.None? <==> f.code == "") && (d.code.Some? ==> d.code.value == f.code)
      && (d.nominalPower.None? <==> f.power == 0) && (d.nominalPower.Some? ==> d.nominalPower.value == f.power)
      && (d.address.None? <==> f.address == "") && (d.address.Some? ==> d.address.value == f.address)
      && d.commissionDate == f.date
      && (d.clientMapId.None? <==> f.client == "")
      && (d.clientMapId.Some? ==> d.clientMapId.value in clients && IntToString(d.clientMapId.value) == f.client)
  {
    if f.client != "" {
      var k :| k in clients && IntToString(k) == f.client;
      ParseIntToString(k);
    }
  }

  /** The site the store holds after inserting `d` under the id `id` it assigns. The payload
      has no `ignore_site` column, so the flag is the store's column default `ignoreDefault`. */
  function ApplyInsert(id: int, ignoreDefault: bool, d: InsertData): (r: Site)
    ensures r.id == id && r.ignoreSite == ignoreDefault
    ensures r.name == Some(d.name) && r.clientMapId == d.clientMapId
    ensures r.code == d.code && r.nominalPower == d.nominalPower && r.address == d.address
    ensures r.commissionDate == d.commissionDate
  {
    Site(id, Some(d.name), d.code, d.nominalPower, d.address, d.commissionDate, d.clientMapId, ignoreDefault)
  }

  /** A site added with only its name has no code, power, address, date or client, and counts
      as power 0 in the filter. */
  lemma AddNameOnly(name: string, id: int, ignoreDefault: bool)
    requires name != ""
    ensures AddPayload(AddForm(name, "", 0, "", None, "")).Ok?
    ensures var s := ApplyInsert(id, ignoreDefault, AddPayload(AddForm(name, "", 0, "", None, "")).value);
      && s.code.None? && s.nominalPower.None? && s.address.None? && s.commissionDate.None?
      && s.clientMapId.None? && EffectivePower(s.nominalPower) == 0
  {
  }
}
