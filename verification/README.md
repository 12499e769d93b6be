# Sites PV dashboard: the data pipeline behind the page

`app.py` is a single Streamlit page over two Supabase tables, `sites_mapping` and
`clients_mapping`. Around its widgets sits a small pipeline:

1. two memoised reads: sites for 60 s, the client lookup for 300 s;
2. a join that gives every site a client name, with "Non assigné" when it has none;
3. a sidebar: a client selector ("Tous" plus the sorted client names), a power range whose
   upper bound starts at the largest power, and the filter that applies both;
4. an edit form and an add form that build the update and insert payloads;
5. writes that clear the sites cache and nothing else.

This project models that pipeline in Dafny and proves what the page relies on.

Modules, one per component:

- `Wrappers`: `Option` (Python's `None`) and `Result`.
- `Collections`: Python's dict comprehension (`DictOf`, the last entry for a key wins) and
  `sorted` over distinct strings (`SortedDistinct`, code point order `Less`).
- `IntText`: `str(k)` and `int(s)` on integers, as the add form's client selector uses them.
- `Sites`: the rows of the two tables, the joined row `SiteView`, the labels "Non assigné" and
  "Tous", and `EffectivePower`, which counts a missing power as 0.
- `Assembly`: the client lookup (`ClientsById`) and the join (`Assemble`).
- `Filters`: the selector options, the default upper bound and the filter. `Filtered` specifies
  the filter. `FilterSites` runs the page's two
  reassignments, each written as a loop over the rows, and is proved equal to it.
- `Forms`: the edit selector's labels, the edit form's initial values and update payload, and
  the add form's validation and insert payload.
- `Cache`: the class `DataCache`. It has the two cache slots and a log of the requests sent to
  the store. What a select returns and whether a write succeeds are parameters of its methods.

Two behaviours of the source are worth knowing. Both are proved, not changed:

- Saving the edit form untouched writes `""` for a null code, name or address
  (`UntouchedEditIsNoOp`). The add form writes null for an empty code or address and refuses
  an empty name (`AddPayloadSpec`). In the model a null power is
  written back as `0`; the source passes NaN there (see `Forms.EditDefaults` under
  "Left out").
- Two shown sites with the same `"name (code)"` label collapse into one edit choice. The
  later one wins (`EditChoicesSpec`).

## Model

| member | source | states |
|---|---|---|
| Collections.DictOfKeys | app.py:49 | a key is in a comprehension-built dict iff some entry carries it |
| Collections.DictOfLastWins | app.py:49 | the value for a key is that of the last entry carrying it |
| Collections.DictOfFromEntry | app.py:165 | every pair of the dict is one of its entries |
| Collections.SortedDistinctSpec | app.py:89 | `sorted(unique(names))` is strictly ascending and holds exactly the names |
| Collections.StrictlySortedUnique | app.py:89 | two strictly ascending lists with the same strings are equal, so the sorted distinct list is unique |
| IntText.ParseIntToString | app.py:262 | `int(str(k)) == k` for every integer id offered by the selector |
| IntText.IntToStringInjective | app.py:243 | distinct client ids give distinct selector strings |
| Assembly.ClientsByIdSpec | app.py:49 | the lookup's keys are exactly the fetched ids; a duplicated id maps to the last row's name |
| Assembly.AssembleSpec | app.py:79-80 | one view per site, same order, the site unchanged; the name is the client's name when the id resolves to a non-null name, "Non assigné" otherwise |
| Filters.ClientOptionsSpec | app.py:89 | options start with "Tous", then each client name of the table exactly once, ascending, and nothing else |
| Filters.MaxPresentPower | app.py:102 | no value iff every power is missing; otherwise a present power that bounds every present power |
| Filters.DefaultMaxPower | app.py:102 | 10000 when the largest present power is 0; otherwise the largest present power |
| Filters.FilteredIsSelection | app.py:107-113 | the result is the input at increasing positions, and a position is kept iff its row satisfies both conditions |
| Filters.FilteredMembership | app.py:108-113 | a row is in the result iff it is in the table, the selector is "Tous" or its client, and min ≤ power (0 if missing) ≤ max |
| Filters.FilteredEmptyRange | app.py:110-113 | min > max gives an empty result |
| Filters.FilteredMissingPower | app.py:110-113 | a site without power is kept iff min ≤ 0 ≤ max and its client condition holds |
| Filters.FilteredAll | app.py:107-113 | when every row satisfies both conditions, the whole table is shown |
| Filters.DefaultFiltersKeepSite | app.py:93-113 | with "Tous", min 0 and the default max, a site with a present non-negative power is shown, whatever the other powers are |
| Filters.DefaultFiltersKeepAll | app.py:93-113 | with "Tous", min 0 and the default max, and no present power negative, the whole table is shown |
| Filters.PowerStepAlone | app.py:107-113 | with "Tous" selected, the power step alone equals the AND-filter |
| Filters.ClientThenPowerStep | app.py:108-113 | for any other selector, the client step then the power step equals the AND-filter |
| Filters.TwoStepFilter | app.py:107-113 | the client step (skipped for "Tous") then the power step equals the single AND-filter |
| Filters.FilterSites | app.py:107-113 | the page's two reassignments (app.py:109, 110-113), each written as a loop over the rows, return exactly `Filtered` |
| Forms.EditChoicesSpec | app.py:165-176 | one label per distinct label of the shown rows; each label picks a shown row carrying it, the last one; no choice iff no row is shown |
| Forms.EditedSiteIsShown | app.py:165-176 | the site picked for editing is a table row that satisfies the sidebar filters |
| Forms.ApplyUpdate | app.py:204-212 | an update sets name, code, power and address to the payload's values, replaces the date with the payload's, and never changes the id, the client or the ignore flag |
| Forms.UntouchedEditIsNoOp | app.py:185-210 | saving the untouched edit form changes nothing iff none of name, code, power, address is null |
| Forms.AddPayloadSpec | app.py:252-263 | an empty name is refused with the name error; otherwise the name is passed unchanged, an empty code or address and a zero power become null, and a selector choice becomes null or the chosen client's id |
| Forms.ApplyInsert | app.py:58-62 | the inserted site carries the store's id and the payload's name, code, power, address, date and client; its ignore flag is the store's column default, a parameter |
| Forms.AddNameOnly | app.py:256-263 | a site added with only a name has null code, power, address, date and client, and counts as power 0 |
| Cache.DataCache.constructor | app.py:37-49 | both cache slots start empty and no request has been sent |
| Cache.DataCache.LoadSites | app.py:37-43 | a cached value younger than 60 s is returned with no request; otherwise one select, whose result is stored with the current time; a failing select returns nothing and leaves the slot as it was; the clients slot is untouched |
| Cache.DataCache.LoadClients | app.py:45-49 | the same with 300 s, storing the lookup built from the fetched rows; a failing select returns nothing and stores nothing; the sites slot is untouched |
| Cache.DataCache.SaveSite | app.py:51-56 | one update request; the sites slot is cleared iff the write succeeds; the clients slot is untouched |
| Cache.DataCache.AddSite | app.py:58-62 | one insert request; the sites slot is cleared iff the write succeeds; the clients slot is untouched |
| Cache.DataCache.SubmitEdit | app.py:203-212 | the form's values are sent as the update of the selected site's row |
| Cache.DataCache.SubmitAdd | app.py:252-265 | a refused form sends nothing and changes no slot; an accepted one sends exactly its insert payload |

## Left out

- Page layout, widgets, tabs, messages, `st.stop` and `st.rerun` are presentation only.
  The "no site found" stop is not modelled.
- Creating the Supabase client and running queries are network calls. A select is a parameter
  holding its result, or `None` when it raises; a write is a parameter saying whether it
  succeeds. A failing read ends the page run with the exception: the model returns nothing
  and stores nothing, and what the page then shows is not modelled.
- The select's `ignore_site = false` condition is assumed of the fetched rows: `LoadSites`
  requires it, and `DataCache.Valid` keeps it. The `order("name")` of both selects is the
  store's and is not modelled. The order of the fetched rows is kept as given.
- CSV export and column renaming are formatting and download plumbing.
- Dates are a `Date` record whose fields nothing reads. Parsing them and `isoformat` are not
  modelled.
- Power is a whole number of kWc (`Option<int>`), and so are the sidebar bounds and form
  values. Floating point is not modelled.
- Filters.DefaultMaxPower: requires at least one present power. When every power is missing,
  pandas' `max()` is NaN, which is truthy, so the 10000 fallback does not apply. NaN is not
  modelled.
- Forms.EditDefaults: a missing power becomes 0, as `or 0` intends. pandas turns a null power
  into NaN in `to_dict('records')`, and NaN is truthy, so the source then passes NaN. NaN is
  not modelled.
- IntText.ParseInt: accepts only an optional minus sign followed by ASCII digits. Python's
  `int` also accepts spaces, `+` and `_`, but the selector only offers `""` and `str(id)`.
- The order of the add form's client options and of the edit selector's labels is display
  order. They are modelled as a set and a map.
- Concurrent sessions and last-write-wins on the store are not this program's logic.
- Error messages for failed writes are not modelled. A failed write is a request sent without
  clearing the cache.
- How the store applies a write is given by `ApplyUpdate` and `ApplyInsert`, as the
  payloads' columns say. Constraint errors are not modelled.
- Forms.ApplyInsert: the insert payload has no `ignore_site` column, so the new row's flag is
  the store's column default, which is not visible here. It is a parameter, not assumed
  false. An added site reaches the sites select (`ignore_site = false`) only if that default
  is false.
