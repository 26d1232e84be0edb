# Repair tickets (`reparaciones`): a Dafny model

This project models the logic of a small Angular app that tracks shoe-repair
tickets (`reparaciones`). The app keeps them in a Firestore collection. Three
parts are modelled:

- **The ticket store** (`RepairService`, `repair.dfy`). The collection is an
  in-memory map from document id to document, held by the class
  `Repair.RepairCollection`.
  - `addEntry` builds the new record. A missing or null `cantidad` becomes 1,
    `estado` is forced to `pendiente` and `fechaCreacion` is stamped.
  - `actualizarEstado` writes a status patch without reading the ticket. It
    stamps `fechaFinalizacion` for `entregada`/`cancelada` and clears it to
    null for `pendiente`.
  - `actualizarReparacion` merges an arbitrary partial patch.
  - `buscarReparaciones` searches. A blank filter returns the snapshot,
    newest `fechaIngreso` first. Any other filter keeps, in order, the records
    whose lower-cased claim code contains the lower-cased filter or whose
    phone contains the filter verbatim.
- **The list view** (`App`, `app.dfy`). The class `AppView.App` holds
  `reparaciones`, `filtroTexto`, `filtroAplicado` and the busy flag
  `filtrandoEnFirebase`. The actions are `buscar`, `limpiarFiltro`,
  `registrar` and `cambiarEstado`, plus the two steps of a load. Starting a
  load raises the busy flag. When a load delivers, it either replaces the list
  wholesale or, on error, leaves the list alone. The pure helpers are
  `hayFiltroActivo`, `getEstadoClass`, the export's sheet and file names, and
  the capitalised status label.
- **Notifications** (`ToastService`, `toast.dfy`). `show` appends a toast and
  schedules its removal. `remove` drops every toast with that text. The timers
  are an explicit queue, and firing one is a method call.

`text.dfy` models `trim`, `toLowerCase`/`toUpperCase` and `includes`.
`values.dfy` models the scalar Firestore values (strings, integers, booleans,
timestamps and null) as JavaScript sees them, with documents as maps from
field name to value. `sequences.dfy` defines
order-preserving subsequences.

Inputs stand in for the environment. These are the clock (`now`), the id the
store assigns (`newId`) and the outcome of each remote call (`remote`: an error
or none). Another input is the order in which the index returns documents for
`orderBy('fechaIngreso', 'desc')`. The model only requires that this order is
a valid descending order; ties may come in any order.

Points where the code's behaviour is easy to misread:

- The search compares both fields against the untrimmed filter. The trimmed
  filter only decides whether the search is blank. (Every filter the view
  itself loads with is already trimmed; `AppView.App.FiltrosRecortados`
  states this.)
- The code has no phone, quantity, description, price or balance validation,
  and it derives no balance. The only form rule is `Validators.required`, so
  form validity is a boolean input to `registrar`.
- Nothing enforces "completion time set exactly when not pending".
  Status changes keep it (`Repair.CambioDeEstadoCoherente`).
  A partial edit can break it (`Repair.EdicionParcialRompeCoherencia`), and so
  can a caller-supplied `fechaFinalizacion` on creation.
- `limpiarFiltro`, `registrar` and `cambiarEstado` start loads even while the
  view is busy. Any delivered load lowers the busy flag, even while other
  loads are still outstanding. Only `Valid()` ("busy implies some load is
  outstanding") holds, not the converse.

## Model

| member | source | states |
|---|---|---|
| `Text.Trim` | src/app/app.ts:86 | `trim()` returns a slice of its input with only whitespace cut from either end and no whitespace left at either end; it is empty iff the input is all whitespace |
| `Text.TrimIdempotent` | src/app/app.ts:86 | trimming an already trimmed filter changes nothing |
| `Text.Lower` | src/app/services/repair.ts:94 | `toLowerCase()` keeps the length and lower-cases each character in place |
| `Text.Contains` | src/app/services/repair.ts:101-102 | `includes` is true iff the substring occurs at some index |
| `Repair.EstadoName` | src/app/services/repair.ts:16 | `Pendiente`, `Entregada` and `Cancelada` are stored as `pendiente`, `entregada` and `cancelada` respectively, each as an iff |
| `Repair.NuevaReparacion` | src/app/services/repair.ts:29-34 | the new record has every caller field unchanged except `cantidad`, `estado` and `fechaCreacion`; `estado` is `pendiente` and `fechaCreacion` is now, whatever was supplied; `cantidad` is 1 exactly when it was missing or null |
| `Repair.CantidadCeroSeConserva` | src/app/services/repair.ts:31 | a supplied quantity of 0 is kept: `??` replaces only null and undefined, not every falsy value |
| `Repair.CambioDeEstado` | src/app/services/repair.ts:41-49 | the status patch writes exactly `estado` and `fechaFinalizacion`: now for delivered or cancelled, null for pending |
| `Repair.CambioDeEstadoCoherente` | src/app/services/repair.ts:41-51 | after any status change, from any prior document, the ticket is pending iff it has no completion time |
| `Repair.NuevaReparacionCoherente` | src/app/services/repair.ts:29-34 | a new ticket is coherent iff the caller supplied no non-null `fechaFinalizacion` |
| `Repair.EdicionParcialRompeCoherencia` | src/app/services/repair.ts:115-118 | a partial patch of `estado` alone leaves a delivered ticket without a completion time: the store does not protect the invariant |
| `Repair.UltimoEstadoDecide` | src/app/services/repair.ts:38-51 | after any sequence of status changes, the last one alone decides `estado` and `fechaFinalizacion`; every other field keeps its value; all transitions are allowed |
| `Repair.EntregadaLuegoPendiente` | src/app/services/repair.ts:44-49 | delivered then pending leaves `fechaFinalizacion` null |
| `Values.Truthy` | src/app/services/repair.ts:98-99 | a value is falsy iff it is `''`, `0`, `false` or `null` |
| `Values.OrEmpty` | src/app/services/repair.ts:98-99 | `x || ''` reads a string field, even `''`, as itself and a missing or falsy field as `''`; only a truthy non-string field stays a non-string, unchanged |
| `Values.Merge` | src/app/services/repair.ts:29-34 | a spread or top-level `updateDoc` has the keys of both sides; the patch's values win and every other field keeps its value |
| `Repair.Listed` | src/app/services/repair.ts:77-80 | a listed record carries all stored fields and has the document id as `id` unless a stored `id` field overrides it |
| `Repair.ListsEachOnce` | src/app/services/repair.ts:74-75 | an order that names every stored id exactly once has as many entries as the collection |
| `Repair.IsIndexOrder` | src/app/services/repair.ts:85-86 | the index order lists only stored ids, as many as are stored, newest `fechaIngreso` first |
| `Repair.Listing` | src/app/services/repair.ts:88-91 | the snapshot has one record per id of the order, at the same position, each listed with its id |
| `Repair.ListingOfIndexOrder` | src/app/services/repair.ts:74-80 | the snapshot read in index order is sorted newest `fechaIngreso` first and contains every stored ticket |
| `Repair.CoincideSpec` | src/app/services/repair.ts:95-106 | the `filter` callback accepts a record iff its claim code (falsy = `''`) is a string and either the lower-cased filter occurs in the lower-cased claim code or the phone (falsy = `''`) is a string in which the filter occurs verbatim |
| `Repair.CoincideCamposTexto` | src/app/services/repair.ts:94-102 | for string or missing fields, a record matches iff the lower-cased claim code (missing = `''`) contains the lower-cased filter, or the phone (missing = `''`) contains the filter case-sensitively |
| `Repair.CodigoCorruptoExcluido` | src/app/services/repair.ts:96-106 | a record whose claim code is truthy but not a string is excluded by the `catch`, whatever the filter |
| `Repair.Filtrar` | src/app/services/repair.ts:95-107 | the filter keeps exactly the matching records, each as often as in the snapshot, as an order-preserving subsequence |
| `Repair.FiltrarOrdenado` | src/app/services/repair.ts:85-107 | filtering a newest-first snapshot keeps it newest first |
| `Repair.Buscar` | src/app/services/repair.ts:64-113 | a failed read is rethrown; a blank filter returns the snapshot unchanged; otherwise the result is the order-preserving subsequence of matching records, each as often as in the snapshot; a sorted snapshot gives a sorted result |
| `Repair.RepairCollection.AddEntry` | src/app/services/repair.ts:27-36 | on success exactly one document, under the fresh id, is added and it is the new record; on a remote failure the error is returned and nothing is written |
| `Repair.RepairCollection.UpdateDoc` | src/app/services/repair.ts:51 | an update merges the patch into the one document and leaves the other documents alone; a remote fault or a missing document rejects and changes nothing |
| `Repair.RepairCollection.ActualizarEstado` | src/app/services/repair.ts:38-56 | a status change rewrites only `estado`/`fechaFinalizacion` of that ticket; a remote fault is rethrown as is, a missing ticket fails with `NotFound(id)`, and in both cases the store is unchanged |
| `Repair.RepairCollection.ActualizarReparacion` | src/app/services/repair.ts:115-123 | a partial edit changes only the patched fields of that ticket; a remote fault is rethrown as is, a missing ticket fails with `NotFound(id)`, and in both cases the store is unchanged |
| `Repair.RepairCollection.BuscarReparaciones` | src/app/services/repair.ts:64-113 | the search over the stored collection returns a newest-first list; a blank filter returns every stored ticket; a failed read is rethrown |
| `AppView.GetEstadoClass` | src/app/app.ts:97-106 | `entregada` maps to `estado-entregada`, `cancelada` to `estado-cancelada` and every other string to `estado-pendiente`, each as an iff |
| `AppView.EstadoClassDeEstado` | src/app/app.ts:97-106 | every stored state gets the class `estado-<state>` |
| `AppView.HayFiltro` | src/app/app.ts:61-63 | the filter is active iff it has a character that is not whitespace |
| `AppView.App.HayFiltroActivo` | src/app/app.ts:61-63 | `hayFiltroActivo` is true iff `filtroAplicado` has a non-whitespace character |
| `AppView.App.HayFiltroActivoSiNoVacio` | src/app/app.ts:61-63 | since the view only applies trimmed filters, `hayFiltroActivo` is true iff `filtroAplicado` is non-empty |
| `AppView.NombresExportacion` | src/app/app.ts:153-156 | the sheet is `Reparaciones_Filtradas` iff `filtroTexto` is not blank, and then the file is `reparaciones_filtradas_<trimmed>.xlsx`; otherwise the names are `Reparaciones`/`reparaciones.xlsx` |
| `AppView.ArchivoInyectivo` | src/app/app.ts:154-156 | distinct trimmed filters give distinct file names |
| `AppView.ArchivoIdentificaFiltro` | src/app/app.ts:154-156 | two filter texts give the same file name iff they trim to the same text |
| `AppView.App.NombresExportacionActual` | src/app/app.ts:153 | the export of the view uses the filtered sheet iff `filtroTexto` is not blank |
| `AppView.EstadoLabel` | src/app/app.ts:146 | the status label keeps the length, upper-cases the first character and keeps the rest |
| `AppView.EstadoLabels` | src/app/app.ts:146 | the three states are labelled `Pendiente`, `Entregada`, `Cancelada` |
| `AppView.App.constructor` | src/app/app.ts:17-34 | the view starts with an empty list and empty filters and is busy with one unfiltered load |
| `AppView.App.CargarReparaciones` | src/app/app.ts:65-71 | starting a load raises the busy flag and adds one outstanding load with that filter; nothing else changes |
| `AppView.App.CargaCompleta` | src/app/app.ts:71-81 | a delivered load lowers the busy flag and is no longer outstanding; on success the list is replaced wholesale and its filter becomes `filtroAplicado`; on error the list and `filtroAplicado` stay |
| `AppView.App.Buscar` | src/app/app.ts:84-89 | while busy nothing changes; otherwise a load with the trimmed `filtroTexto` starts |
| `AppView.App.LimpiarFiltro` | src/app/app.ts:91-95 | both filters become empty and an unfiltered load starts |
| `AppView.App.Registrar` | src/app/app.ts:36-43 | an invalid form changes nothing; a valid form writes the new record and then reloads with `filtroAplicado`; a failed write changes nothing |
| `AppView.App.CambiarEstado` | src/app/app.ts:50-59 | a successful status write is followed by a reload with `filtroAplicado`; a failed one changes neither the view nor the store |
| `Toasts.Without` | src/app/services/toast.service.ts:15 | the filtered list is no longer than the original and no toast in it has the removed message |
| `Toasts.WithoutSpec` | src/app/services/toast.service.ts:15 | `remove(m)` drops every toast with message `m`, duplicates included, and keeps every other toast as often as it was there and in its order |
| `Toasts.WithoutAppend` | src/app/services/toast.service.ts:15 | removal distributes over concatenation |
| `Toasts.WithoutAbsent` | src/app/services/toast.service.ts:15 | removing a message that is not shown leaves the list unchanged |
| `Toasts.WithoutIdempotent` | src/app/services/toast.service.ts:15 | removing twice is removing once |
| `Toasts.ShowThenRemove` | src/app/services/toast.service.ts:9-15 | `show(m)` then its scheduled `remove(m)` leaves no toast with message `m`, and leaves the earlier list as `remove(m)` would have |
| `Toasts.FireKeepsScheduled` | src/app/services/toast.service.ts:11-15 | after the oldest timer fires, every remaining toast still has a pending timer |
| `Toasts.AllDismissed` | src/app/services/toast.service.ts:9-15 | once every scheduled timer has fired, no toast is left |
| `Toasts.ToastService.constructor` | src/app/services/toast.service.ts:7 | the list starts empty |
| `Toasts.ToastService.Show` | src/app/services/toast.service.ts:9-12 | `show` appends exactly one `{message, type}` at the end (type `success` by default), leaves earlier toasts unchanged and schedules one removal |
| `Toasts.ToastService.Remove` | src/app/services/toast.service.ts:14-16 | `remove` replaces the list by its filtered copy |
| `Toasts.ToastService.FireTimer` | src/app/services/toast.service.ts:11 | the oldest timer fires, is no longer pending, and removes its message |

## Left out

- Firestore and AngularFire calls (`collection`, `addDoc`, `getDocs`, `updateDoc`, `query`, `orderBy`) are replaced by the map in `Repair.RepairCollection`. Remote outcomes, the clock and fresh ids are inputs. A read is an atomic snapshot.
- `Repair.RepairCollection.AddEntry`: requires that the fresh id is not already stored. Firestore's automatic ids guarantee this.
- `Repair.SortKey`: documents whose `fechaIngreso` is missing or not a string are ordered as if it were `''`. Firestore leaves documents without the field out of an ordered query and orders mixed types by type; neither is modelled.
- `Repair.RepairCollection.UpdateDoc`: a remote fault is reported before a missing document. Only the top-level replacement of fields is modelled, not dotted field paths or field deletion sentinels.
- `getEntries` and the rxjs `Observable`/`from` wrapping: the completion step `AppView.App.CargaCompleta` receives what the search settled with. The Observable wrapping and async timing are not modelled.
- `console` logging, the `alert` in `cambiarEstado`, and `form.reset()` after a successful `registrar`. These are UI side effects with no effect on the modelled state.
- Angular `FormBuilder`/`Validators`: form validity is a boolean input to `AppView.App.Registrar`.
- `reparacionesFiltradas` only returns `reparaciones`, so it has no member of its own.
- `formatearFecha` depends on JavaScript `Date` and locale formatting. The XLSX workbook, the export rows other than the status label, and file writing are also left out.
- `setTimeout`: the timers are a FIFO queue. This is valid because every delay is 3000 ms. Firing one is `Toasts.ToastService.FireTimer`.
- `src/app/toast.component.ts` is template-only and is not part of this model.
- `Text.Lower`: lower-cases ASCII letters only, not the full Unicode `toLowerCase`. `Text.UpperChar` (used by `AppView.EstadoLabel`) is likewise ASCII-only.
- `Values.Value`, `Repair.Coincide`: Firestore arrays, maps, GeoPoints, bytes and document references are not modelled. An array-valued `telefono` would not throw: `includes` would then be `Array.prototype.includes` and keep the record when one element equals the filter. The model cannot express that case.
- Numbers are integers. JavaScript doubles, `NaN` and `undefined`-valued fields (an absent key stands for `undefined`) are not modelled.
- `Repair.RepairCollection.ActualizarEstado` takes the state as the three-valued `Repair.Estado`, as the TypeScript type demands. The `else if` branch for any other string cannot be reached.
