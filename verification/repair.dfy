/**
 * The repair-ticket store of `RepairService`: building a new ticket,
 * status changes, partial edits and the search over the `reparaciones`
 * collection.
 *
 * The remote collection is an in-memory map from document id to document.
 * The clock, the fresh id, the outcome of each remote call and the order
 * in which the store's index returns documents are inputs.
 */
module Repair {
  import opened Values
  import opened Sequences
  import Text

  /** The three ticket states. */
  datatype Estado = Pendiente | Entregada | Cancelada

  /** The string a state is stored as. */
  function EstadoName(e: Estado): (s: string)
    ensures s == "pendiente" <==> e == Pendiente
    ensures s == "entregada" <==> e == Entregada
    ensures s == "cancelada" <==> e == Cancelada
  {
    match e
    case Pendiente => "pendiente"
    case Entregada => "entregada"
    case Cancelada => "cancelada"
  }

  // ---------------------------------------------------------------------
  // addEntry: the record written for a new ticket
  // ---------------------------------------------------------------------

  /** The fields `addEntry` writes over whatever the caller supplied. */
  const Sellados: set<string> := {"cantidad", "estado", "fechaCreacion"}

  /**
   * The object `addEntry` writes: the caller's fields, then `cantidad`
   * defaulted with `??` (only a missing or null quantity becomes 1), the
   * state forced to pending and the creation time stamped.
   */
  function NuevaReparacion(entry: Document, now: Time): (r: Document)
    ensures r.Keys == entry.Keys + Sellados
    ensures r["estado"] == Str("pendiente") && r["fechaCreacion"] == Date(now)
    ensures "cantidad" in entry && entry["cantidad"] != Null ==> r["cantidad"] == entry["cantidad"]
    ensures "cantidad" !in entry || entry["cantidad"] == Null ==> r["cantidad"] == Num(1)
    ensures forall k :: k in entry && k !in Sellados ==> r[k] == entry[k]
  {
    var cantidad := if "cantidad" in entry && entry["cantidad"] != Null then entry["cantidad"] else Num(1);
    Merge(entry, map["cantidad" := cantidad, "estado" := Str(EstadoName(Pendiente)), "fechaCreacion" := Date(now)])
  }

  /** A quantity of 0 is kept: `??` only replaces null and undefined. */
  lemma CantidadCeroSeConserva(entry: Document, now: Time)
    requires "cantidad" in entry && entry["cantidad"] == Num(0)
    ensures NuevaReparacion(entry, now)["cantidad"] == Num(0)
  {
  }

  // ---------------------------------------------------------------------
  // actualizarEstado: the patch written for a status change
  // ---------------------------------------------------------------------

  /**
   * The patch `actualizarEstado` writes: the new state, and the completion
   * time stamped for delivered or cancelled, cleared to null for pending.
   * The prior state is never read.
   */
  function CambioDeEstado(nuevo: Estado, now: Time): (p: Document)
    ensures p.Keys == {"estado", "fechaFinalizacion"}
    ensures p["estado"] == Str(EstadoName(nuevo))
    ensures nuevo != Pendiente ==> p["fechaFinalizacion"] == Date(now)
    ensures nuevo == Pendiente ==> p["fechaFinalizacion"] == Null
  {
    var base := map["estado" := Str(EstadoName(nuevo))];
    if nuevo == Entregada || nuevo == Cancelada then base["fechaFinalizacion" := Date(now)]
    else base["fechaFinalizacion" := Null]
  }

  /** The completion time is set exactly when the ticket is not pending. */
  ghost predicate FinalizacionCoherente(d: Document)
  {
    && "estado" in d
    && (d["estado"] == Str("pendiente") <==> "fechaFinalizacion" !in d || d["fechaFinalizacion"] == Null)
  }

  /** Any status change, from any prior document, leaves the completion time coherent with the state. */
  lemma CambioDeEstadoCoherente(d: Document, nuevo: Estado, now: Time)
    ensures FinalizacionCoherente(Merge(d, CambioDeEstado(nuevo, now)))
  {
  }

  /** A new ticket is coherent exactly when the caller supplied no non-null completion time. */
  lemma NuevaReparacionCoherente(entry: Document, now: Time)
    ensures FinalizacionCoherente(NuevaReparacion(entry, now))
            <==> "fechaFinalizacion" !in entry || entry["fechaFinalizacion"] == Null
  {
  }

  /**
   * The store does not protect coherence against partial edits: a patch
   * that sets only the state leaves a pending ticket delivered without a
   * completion time.
   */
  lemma EdicionParcialRompeCoherencia(entry: Document, now: Time)
    requires "fechaFinalizacion" !in entry
    ensures !FinalizacionCoherente(Merge(NuevaReparacion(entry, now), map["estado" := Str("entregada")]))
  {
  }

  /** Status changes applied one after another, each with the time it happened at. */
  function AplicarEstados(d: Document, cambios: seq<(Estado, Time)>): (r: Document)
    decreases |cambios|
  {
    if cambios == [] then d
    else AplicarEstados(Merge(d, CambioDeEstado(cambios[0].0, cambios[0].1)), cambios[1..])
  }

  /**
   * Whatever the history, only the last status change decides the state and
   * the completion time; all other fields keep their value from before the
   * first change.
   */
  lemma {:induction false} UltimoEstadoDecide(d: Document, cambios: seq<(Estado, Time)>)
    requires cambios != []
    ensures var r := AplicarEstados(d, cambios);
            var (e, t) := cambios[|cambios| - 1];
            && r.Keys == d.Keys + {"estado", "fechaFinalizacion"}
            && r["estado"] == Str(EstadoName(e))
            && r["fechaFinalizacion"] == (if e == Pendiente then Null else Date(t))
            && forall k :: k in d && k !in {"estado", "fechaFinalizacion"} ==> r[k] == d[k]
    decreases |cambios|
  {
    var d' := Merge(d, CambioDeEstado(cambios[0].0, cambios[0].1));
    if |cambios| > 1 {
      UltimoEstadoDecide(d', cambios[1..]);
      assert cambios[1..][|cambios[1..]| - 1] == cambios[|cambios| - 1];
    }
  }

  /** Delivered, then back to pending: the completion time is null again. */
  lemma EntregadaLuegoPendiente(d: Document, t1: Time, t2: Time)
    ensures var r := AplicarEstados(d, [(Entregada, t1), (Pendiente, t2)]);
            && "estado" in r && r["estado"] == Str("pendiente")
            && "fechaFinalizacion" in r && r["fechaFinalizacion"] == Null
  {
    UltimoEstadoDecide(d, [(Entregada, t1), (Pendiente, t2)]);
  }

  // ---------------------------------------------------------------------
  // buscarReparaciones: listing, ordering and the client-side filter
  // ---------------------------------------------------------------------

  /** `{id: doc.id, ...doc.data()}`: the id, overridden by a stored `id` field if there is one. */
  function Listed(id: string, data: Document): (r: Document)
    ensures r.Keys == data.Keys + {"id"}
    ensures "id" !in data ==> r["id"] == Str(id)
    ensures forall k :: k in data ==> r[k] == data[k]
  {
    Merge(map["id" := Str(id)], data)
  }

  /** The value the index orders by: `fechaIngreso` when it is a string, `''` otherwise. */
  function SortKey(d: Document): string
  {
    if "fechaIngreso" in d && d["fechaIngreso"].Str? then d["fechaIngreso"].s else ""
  }

  /** Lexicographic order on strings, character by character. */
  predicate StrLe(a: string, b: string)
  {
    if a == [] then true
    else if b == [] then false
    else if a[0] != b[0] then a[0] < b[0]
    else StrLe(a[1..], b[1..])
  }

  /** Ordered by `fechaIngreso`, newest first. */
  ghost predicate SortedDesc(rs: seq<Document>)
  {
    forall i, j :: 0 <= i < j < |rs| ==> StrLe(SortKey(rs[j]), SortKey(rs[i]))
  }

  /** `order` names every stored id exactly once, so it has as many entries as the collection. */
  ghost predicate ListsEachOnce(docs: map<string, Document>, order: seq<string>): (b: bool)
    ensures b ==> |order| == |docs|
    ensures b ==> (forall i :: 0 <= i < |order| ==> order[i] in docs) && (forall id :: id in docs ==> id in order)
  {
    if && (forall i :: 0 <= i < |order| ==> order[i] in docs)
       && (forall id :: id in docs ==> id in order)
       && (forall i, j :: 0 <= i < j < |order| ==> order[i] != order[j])
    then
      DistinctCard(order);
      assert (set id | id in order) == docs.Keys;
      true
    else
      false
  }

  /**
   * `order` is what `orderBy('fechaIngreso', 'desc')` may return: every
   * stored id exactly once, in non-increasing order of the key. Ties may
   * come in any order.
   */
  ghost predicate IsIndexOrder(docs: map<string, Document>, order: seq<string>)
  {
    && ListsEachOnce(docs, order)
    && (forall i, j :: 0 <= i < j < |order| ==> StrLe(SortKey(docs[order[j]]), SortKey(docs[order[i]])))
  }

  /** A sequence without repetitions has as many distinct elements as positions. */
  lemma {:induction false} DistinctCard(s: seq<string>)
    ensures (forall i, j :: 0 <= i < j < |s| ==> s[i] != s[j]) ==> |set x | x in s| == |s|
    decreases |s|
  {
    if s != [] && (forall i, j :: 0 <= i < j < |s| ==> s[i] != s[j]) {
      DistinctTail(s);
      DistinctCard(s[1..]);
      ElementsOfCons(s);
    }
  }

  /** Dropping the head keeps a sequence free of repetitions, and the head does not recur. */
  lemma DistinctTail(s: seq<string>)
    requires s != []
    requires forall i, j :: 0 <= i < j < |s| ==> s[i] != s[j]
    ensures forall i, j :: 0 <= i < j < |s[1..]| ==> s[1..][i] != s[1..][j]
    ensures s[0] !in s[1..]
  {
    var tail := s[1..];
    forall i, j | 0 <= i < j < |tail| ensures tail[i] != tail[j] {
      assert tail[i] == s[i + 1] && tail[j] == s[j + 1];
    }
    forall j | 0 <= j < |tail| ensures tail[j] != s[0] {
      assert tail[j] == s[j + 1];
    }
  }

  /** The elements of a non-empty sequence are its head and the elements of its tail. */
  lemma ElementsOfCons(s: seq<string>)
    requires s != []
    ensures (set x | x in s) == (set x | x in s[1..]) + {s[0]}
  {
    assert s == [s[0]] + s[1..];
  }

  /** The snapshot read in `order`, each document listed with its id. */
  function Listing(docs: map<string, Document>, order: seq<string>): (rs: seq<Document>)
    requires forall i :: 0 <= i < |order| ==> order[i] in docs
    ensures |rs| == |order|
    ensures forall i :: 0 <= i < |order| ==> rs[i] == Listed(order[i], docs[order[i]])
  {
    seq(|order|, i requires 0 <= i < |order| => Listed(order[i], docs[order[i]]))
  }

  /** Listing in index order gives every stored ticket, newest first. */
  lemma ListingOfIndexOrder(docs: map<string, Document>, order: seq<string>)
    requires IsIndexOrder(docs, order)
    ensures SortedDesc(Listing(docs, order))
    ensures forall id :: id in docs ==> Listed(id, docs[id]) in Listing(docs, order)
  {
    ListingOrdenado(docs, order);
    ListingCompleto(docs, order);
  }

  /** Listing preserves the order of the keys it reads. */
  lemma ListingOrdenado(docs: map<string, Document>, order: seq<string>)
    requires forall i :: 0 <= i < |order| ==> order[i] in docs
    requires forall i, j :: 0 <= i < j < |order| ==> StrLe(SortKey(docs[order[j]]), SortKey(docs[order[i]]))
    ensures SortedDesc(Listing(docs, order))
  {
    var rs := Listing(docs, order);
    forall i, j | 0 <= i < j < |rs| ensures StrLe(SortKey(rs[j]), SortKey(rs[i])) {
      assert rs[i] == Listed(order[i], docs[order[i]]);
      assert rs[j] == Listed(order[j], docs[order[j]]);
      ListedSortKey(order[i], docs[order[i]]);
      ListedSortKey(order[j], docs[order[j]]);
    }
  }

  /** Adding the id leaves the ordering key alone. */
  lemma ListedSortKey(id: string, data: Document)
    ensures SortKey(Listed(id, data)) == SortKey(data)
  {
  }

  /** Every id the order names is listed. */
  lemma ListingCompleto(docs: map<string, Document>, order: seq<string>)
    requires forall i :: 0 <= i < |order| ==> order[i] in docs
    requires forall id :: id in docs ==> id in order
    ensures forall id :: id in docs ==> Listed(id, docs[id]) in Listing(docs, order)
  {
    var rs := Listing(docs, order);
    forall id | id in docs ensures Listed(id, docs[id]) in rs {
      var i :| 0 <= i < |order| && order[i] == id;
      assert rs[i] == Listed(order[i], docs[order[i]]);
    }
  }

  /**
   * The `filter` callback. Missing or falsy fields count as `''`. The claim
   * code is compared lower-cased, the phone verbatim, both against the
   * untrimmed filter. A claim code that is a truthy number, boolean or
   * timestamp makes `toLowerCase` throw, and the `catch` drops the record;
   * the same holds for `includes` on such a phone.
   */
  predicate Coincide(rep: Document, filtro: string)
  {
    var codigo := OrEmpty(rep, "codigoReclamacion");
    var telefono := OrEmpty(rep, "telefono");
    if !codigo.Str? then false
    else if Text.Contains(Text.Lower(codigo.s), Text.Lower(filtro)) then true
    else telefono.Str? && Text.Contains(telefono.s, filtro)
  }

  /**
   * The callback accepts a record exactly when its claim code (or `''`) is
   * a string whose lower-cased form has the lower-cased filter at some
   * index, or its phone (or `''`) is a string that has the filter itself at
   * some index.
   */
  lemma CoincideSpec(rep: Document, filtro: string)
    ensures Coincide(rep, filtro) <==>
      && OrEmpty(rep, "codigoReclamacion").Str?
      && (|| (exists i :: Text.OccursAt(Text.Lower(OrEmpty(rep, "codigoReclamacion").s), Text.Lower(filtro), i))
          || (OrEmpty(rep, "telefono").Str? && exists i :: Text.OccursAt(OrEmpty(rep, "telefono").s, filtro, i)))
  {
    var codigo := OrEmpty(rep, "codigoReclamacion");
    if codigo.Str? && Text.Contains(Text.Lower(codigo.s), Text.Lower(filtro)) {
      assert exists i :: Text.OccursAt(Text.Lower(codigo.s), Text.Lower(filtro), i);
    }
  }

  /** On records whose two fields are strings or absent, the callback is the plain two-field OR. */
  lemma CoincideCamposTexto(rep: Document, filtro: string)
    requires "codigoReclamacion" in rep ==> rep["codigoReclamacion"].Str?
    requires "telefono" in rep ==> rep["telefono"].Str?
    ensures var codigo := if "codigoReclamacion" in rep then rep["codigoReclamacion"].s else "";
            var telefono := if "telefono" in rep then rep["telefono"].s else "";
            Coincide(rep, filtro)
            <==> Text.Contains(Text.Lower(codigo), Text.Lower(filtro)) || Text.Contains(telefono, filtro)
  {
  }

  /** A record with a corrupt claim code is dropped whatever the filter. */
  lemma CodigoCorruptoExcluido(rep: Document, filtro: string)
    requires "codigoReclamacion" in rep && Truthy(rep["codigoReclamacion"]) && !rep["codigoReclamacion"].Str?
    ensures !Coincide(rep, filtro)
  {
  }

  /** `todosLosDatos.filter(...)`: the records the callback accepts, in their order. */
  function Filtrar(rs: seq<Document>, filtro: string): (r: seq<Document>)
    ensures forall d :: d in r <==> d in rs && Coincide(d, filtro)
    ensures forall d :: multiset(r)[d] == if Coincide(d, filtro) then multiset(rs)[d] else 0
    ensures IsSubseq(r, rs)
  {
    if rs == [] then []
    else if Coincide(rs[0], filtro) then
      var t := Filtrar(rs[1..], filtro);
      assert rs == [rs[0]] + rs[1..];
      assert forall d :: d in rs <==> d == rs[0] || d in rs[1..];
      assert ([rs[0]] + t)[1..] == t;
      [rs[0]] + t
    else
      var t := Filtrar(rs[1..], filtro);
      assert rs == [rs[0]] + rs[1..];
      assert forall d :: d in rs <==> d == rs[0] || d in rs[1..];
      assert t == [] || t[0] != rs[0] by {
        if t != [] { assert t[0] in t; }
      }
      t
  }

  /** The head of a newest-first snapshot is at least as new as anything filtered from the rest. */
  lemma CabezaAcotaFiltrado(rs: seq<Document>, filtro: string)
    requires rs != [] && SortedDesc(rs)
    ensures forall d :: d in Filtrar(rs[1..], filtro) ==> StrLe(SortKey(d), SortKey(rs[0]))
  {
    forall d | d in Filtrar(rs[1..], filtro) ensures StrLe(SortKey(d), SortKey(rs[0])) {
      var k :| 0 <= k < |rs[1..]| && rs[1..][k] == d;
      assert rs[k + 1] == d;
    }
  }

  /** A newest-first snapshot stays newest first without its head. */
  lemma ColaOrdenada(rs: seq<Document>)
    requires rs != [] && SortedDesc(rs)
    ensures SortedDesc(rs[1..])
  {
    var tail := rs[1..];
    forall i, j | 0 <= i < j < |tail| ensures StrLe(SortKey(tail[j]), SortKey(tail[i])) {
      assert tail[i] == rs[i + 1] && tail[j] == rs[j + 1];
    }
  }

  /** A head at least as new as every element of a newest-first list keeps it newest first. */
  lemma AnteponerOrdenado(d: Document, t: seq<Document>)
    requires SortedDesc(t)
    requires forall e :: e in t ==> StrLe(SortKey(e), SortKey(d))
    ensures SortedDesc([d] + t)
  {
    var r := [d] + t;
    forall i, j | 0 <= i < j < |r| ensures StrLe(SortKey(r[j]), SortKey(r[i])) {
      assert r[j] == t[j - 1];
      if i > 0 {
        assert r[i] == t[i - 1];
      }
    }
  }

  /** Filtering keeps the newest-first order of the snapshot. */
  lemma {:induction false} FiltrarOrdenado(rs: seq<Document>, filtro: string)
    ensures SortedDesc(rs) ==> SortedDesc(Filtrar(rs, filtro))
    decreases |rs|
  {
    if rs != [] && SortedDesc(rs) {
      ColaOrdenada(rs);
      FiltrarOrdenado(rs[1..], filtro);
      if Coincide(rs[0], filtro) {
        CabezaAcotaFiltrado(rs, filtro);
        AnteponerOrdenado(rs[0], Filtrar(rs[1..], filtro));
      }
    }
  }

  /**
   * `buscarReparaciones(filtro)` given what the read of the ordered
   * collection settled with: a failed read is rethrown; a blank filter
   * returns the snapshot as read; otherwise the snapshot is filtered.
   */
  function Buscar(filtro: string, leido: Result<seq<Document>>): (r: Result<seq<Document>>)
    ensures leido.Failure? ==> r == leido
    ensures leido.Success? && Text.IsBlank(filtro) ==> r == leido
    ensures leido.Success? ==> r.Success? && IsSubseq(r.value, leido.value)
    ensures leido.Success? && !Text.IsBlank(filtro) ==>
              && (forall d :: d in r.value <==> d in leido.value && Coincide(d, filtro))
              && (forall d :: multiset(r.value)[d] == if Coincide(d, filtro) then multiset(leido.value)[d] else 0)
    ensures leido.Success? && SortedDesc(leido.value) ==> SortedDesc(r.value)
  {
    match leido
    case Failure(e) => Failure(e)
    case Success(todos) =>
      if Text.IsBlank(filtro) then
        SubseqRefl(todos);
        Success(todos)
      else
        FiltrarOrdenado(todos, filtro);
        Success(Filtrar(todos, filtro))
  }

  // ---------------------------------------------------------------------
  // The collection
  // ---------------------------------------------------------------------

  /** The `reparaciones` collection as `RepairService` sees it. */
  class RepairCollection {
    var docs: map<string, Document>

    constructor ()
      ensures docs == map[]
    {
      docs := map[];
    }

    /**
     * `addEntry`: writes the new ticket under the fresh id the store hands
     * out, or rejects with the remote error and writes nothing.
     */
    method AddEntry(entry: Document, now: Time, newId: string, remote: Option<Error>) returns (r: Result<string>)
      requires newId !in docs
      modifies this
      ensures remote.None? ==> r == Success(newId) && docs == old(docs)[newId := NuevaReparacion(entry, now)]
      ensures remote.Some? ==> r == Failure(remote.value) && docs == old(docs)
    {
      if remote.Some? {
        return Failure(remote.value);
      }
      docs := docs[newId := NuevaReparacion(entry, now)];
      r := Success(newId);
    }

    /**
     * `updateDoc`: merges the patch into the one document, or rejects
     * (remote fault first, then a missing document) and changes nothing.
     */
    method UpdateDoc(id: string, patch: Document, remote: Option<Error>) returns (r: Result<()>)
      modifies this
      ensures remote.Some? ==> r == Failure(remote.value)
      ensures remote.None? && id !in old(docs) ==> r == Failure(NotFound(id))
      ensures remote.None? && id in old(docs) ==> r == Success(())
      ensures r.Success? ==> docs == old(docs)[id := Merge(old(docs)[id], patch)]
      ensures r.Failure? ==> docs == old(docs)
    {
      if remote.Some? {
        return Failure(remote.value);
      }
      if id !in docs {
        return Failure(NotFound(id));
      }
      docs := docs[id := Merge(docs[id], patch)];
      r := Success(());
    }

    /** `actualizarEstado`: a blind write of the status patch; failures are rethrown. */
    method ActualizarEstado(id: string, nuevo: Estado, now: Time, remote: Option<Error>) returns (r: Result<()>)
      modifies this
      ensures remote.Some? ==> r == Failure(remote.value)
      ensures remote.None? && id !in old(docs) ==> r == Failure(NotFound(id))
      ensures r.Failure? <==> remote.Some? || id !in old(docs)
      ensures r.Success? ==> docs == old(docs)[id := Merge(old(docs)[id], CambioDeEstado(nuevo, now))]
      ensures r.Failure? ==> docs == old(docs)
    {
      r := UpdateDoc(id, CambioDeEstado(nuevo, now), remote);
    }

    /** `actualizarReparacion`: merges an arbitrary partial patch; failures are rethrown. */
    method ActualizarReparacion(id: string, cambios: Document, remote: Option<Error>) returns (r: Result<()>)
      modifies this
      ensures remote.Some? ==> r == Failure(remote.value)
      ensures remote.None? && id !in old(docs) ==> r == Failure(NotFound(id))
      ensures r.Failure? <==> remote.Some? || id !in old(docs)
      ensures r.Success? ==> docs == old(docs)[id := Merge(old(docs)[id], cambios)]
      ensures r.Failure? ==> docs == old(docs)
    {
      r := UpdateDoc(id, cambios, remote);
    }

    /**
     * `buscarReparaciones`: reads the collection in the index's order (or
     * fails with the remote error) and searches the snapshot.
     */
    method BuscarReparaciones(filtro: string, order: seq<string>, remote: Option<Error>) returns (r: Result<seq<Document>>)
      requires IsIndexOrder(docs, order)
      ensures remote.Some? ==> r == Failure(remote.value)
      ensures remote.None? ==> r == Buscar(filtro, Success(Listing(docs, order)))
      ensures r.Success? ==> SortedDesc(r.value)
      ensures r.Success? && Text.IsBlank(filtro) ==> forall id :: id in docs ==> Listed(id, docs[id]) in r.value
    {
      var leido: Result<seq<Document>>;
      if remote.Some? {
        leido := Failure(remote.value);
      } else {
        ListingOfIndexOrder(docs, order);
        leido := Success(Listing(docs, order));
      }
      r := Buscar(filtro, leido);
    }
  }
}
