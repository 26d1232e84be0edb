/**
 * The `App` component: the list view's state (`reparaciones`,
 * `filtroTexto`, `filtroAplicado`, the busy flag `filtrandoEnFirebase`),
 * the actions that change it, and the pure helpers the template and the
 * spreadsheet export use.
 *
 * A load (`cargarReparaciones`) is two steps: starting it sets the busy
 * flag and subscribes; the subscription later delivers the search result
 * or an error. Loads that have started and not yet delivered are kept in
 * `cargas`, each with the filter it was started with.
 */
module AppView {
  import opened Values
  import Text
  import Repair

  /** The CSS class of a status badge: the two closed states by name, anything else as pending. */
  function GetEstadoClass(estado: string): (c: string)
    ensures c == "estado-entregada" <==> estado == "entregada"
    ensures c == "estado-cancelada" <==> estado == "cancelada"
    ensures c == "estado-pendiente" <==> estado != "entregada" && estado != "cancelada"
  {
    match estado
    case "entregada" => "estado-entregada"
    case "cancelada" => "estado-cancelada"
    case _ => "estado-pendiente"
  }

  /** Every stored state gets the class named after it. */
  lemma EstadoClassDeEstado(e: Repair.Estado)
    ensures GetEstadoClass(Repair.EstadoName(e)) == "estado-" + Repair.EstadoName(e)
  {
  }

  /** `(filtro || '').trim().length > 0`: the filter has a character that is not whitespace. */
  function HayFiltro(filtro: string): (b: bool)
    ensures b <==> exists k :: 0 <= k < |filtro| && !Text.IsSpace(filtro[k])
  {
    |Text.Trim(filtro)| > 0
  }

  /** The worksheet and file names of an export. */
  datatype Exportacion = Exportacion(hoja: string, archivo: string)

  /** The names for an already trimmed filter. */
  function NombresDeFiltro(f: string): Exportacion
  {
    if f != "" then Exportacion("Reparaciones_Filtradas", "reparaciones_filtradas_" + f + ".xlsx")
    else Exportacion("Reparaciones", "reparaciones.xlsx")
  }

  /**
   * `exportarExcel`'s naming: a filtered sheet and a file named after the
   * trimmed filter when `filtroTexto` is not blank; the plain names
   * otherwise.
   */
  function NombresExportacion(filtroTexto: string): (x: Exportacion)
    ensures x.hoja == "Reparaciones_Filtradas" <==> exists k :: 0 <= k < |filtroTexto| && !Text.IsSpace(filtroTexto[k])
    ensures x.hoja != "Reparaciones_Filtradas" ==> x == Exportacion("Reparaciones", "reparaciones.xlsx")
    ensures x.hoja == "Reparaciones_Filtradas" ==> x.archivo == "reparaciones_filtradas_" + Text.Trim(filtroTexto) + ".xlsx"
  {
    NombresDeFiltro(Text.Trim(filtroTexto))
  }

  /** Distinct trimmed filters give distinct file names. */
  lemma {:induction false} ArchivoInyectivo(fa: string, fb: string)
    ensures NombresDeFiltro(fa).archivo == NombresDeFiltro(fb).archivo <==> fa == fb
  {
    var xa, xb := NombresDeFiltro(fa).archivo, NombresDeFiltro(fb).archivo;
    var pre := "reparaciones_filtradas_";
    assert fa != "" ==> |xa| > |"reparaciones.xlsx"|;
    assert fb != "" ==> |xb| > |"reparaciones.xlsx"|;
    if xa == xb && fa != "" && fb != "" {
      assert |fa| == |fb|;
      forall k | 0 <= k < |fa| ensures fa[k] == fb[k] {
        assert xa[|pre| + k] == fa[k];
        assert xb[|pre| + k] == fb[k];
      }
    }
  }

  /**
   * Two filters give the same file name exactly when they trim to the same
   * text: the file name identifies the filter that produced it.
   */
  lemma ArchivoIdentificaFiltro(a: string, b: string)
    ensures NombresExportacion(a).archivo == NombresExportacion(b).archivo <==> Text.Trim(a) == Text.Trim(b)
  {
    ArchivoInyectivo(Text.Trim(a), Text.Trim(b));
  }

  /** The status column of the export: the first character upper-cased, the rest as is. */
  function EstadoLabel(estado: string): (r: string)
    ensures |r| == |estado|
    ensures estado != [] ==> r[0] == Text.UpperChar(estado[0]) && r[1..] == estado[1..]
  {
    if estado == [] then [] else [Text.UpperChar(estado[0])] + estado[1..]
  }

  /** The labels of the three states. */
  lemma EstadoLabels()
    ensures EstadoLabel(Repair.EstadoName(Repair.Pendiente)) == "Pendiente"
    ensures EstadoLabel(Repair.EstadoName(Repair.Entregada)) == "Entregada"
    ensures EstadoLabel(Repair.EstadoName(Repair.Cancelada)) == "Cancelada"
  {
  }

  class App {
    var reparaciones: seq<Document>
    var filtroTexto: string
    var filtroAplicado: string
    var filtrandoEnFirebase: bool
    /** The filters of the loads that have started and not yet delivered, oldest first. */
    var cargas: seq<string>

    /** The busy flag is only up while some load is outstanding. */
    ghost predicate Valid()
      reads this
    {
      filtrandoEnFirebase ==> cargas != []
    }

    /** Every filter the view has applied or is loading with is already trimmed. */
    ghost predicate FiltrosRecortados()
      reads this
    {
      && Text.IsTrimmed(filtroAplicado)
      && forall i :: 0 <= i < |cargas| ==> Text.IsTrimmed(cargas[i])
    }

    /** The component starts empty and immediately loads everything. */
    constructor ()
      ensures Valid() && FiltrosRecortados()
      ensures reparaciones == [] && filtroTexto == "" && filtroAplicado == ""
      ensures filtrandoEnFirebase && cargas == [""]
    {
      reparaciones, filtroTexto, filtroAplicado := [], "", "";
      filtrandoEnFirebase, cargas := false, [];
      new;
      CargarReparaciones("");
    }

    /** `hayFiltroActivo`: the applied filter is not blank. */
    function HayFiltroActivo(): (b: bool)
      reads this
      ensures b <==> exists k :: 0 <= k < |filtroAplicado| && !Text.IsSpace(filtroAplicado[k])
    {
      HayFiltro(filtroAplicado)
    }

    /** Since the view only applies trimmed filters, a filter is active exactly when `filtroAplicado` is non-empty. */
    lemma HayFiltroActivoSiNoVacio()
      requires FiltrosRecortados()
      ensures HayFiltroActivo() <==> filtroAplicado != ""
    {
      Text.TrimFixpoint(filtroAplicado);
    }

    /** The export names for the current `filtroTexto`. */
    function NombresExportacionActual(): (x: Exportacion)
      reads this
      ensures x.hoja == "Reparaciones_Filtradas" <==> HayFiltro(filtroTexto)
    {
      NombresExportacion(filtroTexto)
    }

    /** Starting `cargarReparaciones(filtro)`: the busy flag goes up and a load with that filter is outstanding. */
    method CargarReparaciones(filtro: string)
      requires Valid()
      modifies this
      ensures Valid()
      ensures filtrandoEnFirebase && cargas == old(cargas) + [filtro]
      ensures reparaciones == old(reparaciones)
      ensures filtroTexto == old(filtroTexto) && filtroAplicado == old(filtroAplicado)
      ensures old(FiltrosRecortados()) && Text.IsTrimmed(filtro) ==> FiltrosRecortados()
    {
      filtrandoEnFirebase := true;
      cargas := cargas + [filtro];
      assert forall i :: 0 <= i < |old(cargas)| ==> cargas[i] == old(cargas)[i];
    }

    /**
     * The `k`-th outstanding load delivers: on success the list is replaced
     * wholesale and its filter becomes the applied one; on error both stay.
     * Either way the busy flag comes down.
     */
    method CargaCompleta(k: nat, res: Result<seq<Document>>)
      requires Valid() && k < |cargas|
      modifies this
      ensures Valid() && !filtrandoEnFirebase
      ensures cargas == old(cargas[..k] + cargas[k + 1..])
      ensures res.Success? ==> reparaciones == res.value && filtroAplicado == old(cargas[k])
      ensures res.Failure? ==> reparaciones == old(reparaciones) && filtroAplicado == old(filtroAplicado)
      ensures filtroTexto == old(filtroTexto)
      ensures old(FiltrosRecortados()) ==> FiltrosRecortados()
    {
      var filtro := cargas[k];
      if res.Success? {
        reparaciones := res.value;
        filtroAplicado := filtro;
      }
      filtrandoEnFirebase := false;
      cargas := cargas[..k] + cargas[k + 1..];
      assert forall i :: 0 <= i < |cargas| ==> cargas[i] == old(cargas)[if i < k then i else i + 1];
    }

    /** `buscar`: ignored while a load is in flight; otherwise loads with the trimmed `filtroTexto`. */
    method Buscar()
      requires Valid()
      modifies this
      ensures Valid()
      ensures old(filtrandoEnFirebase) ==> unchanged(this)
      ensures !old(filtrandoEnFirebase) ==>
                && filtrandoEnFirebase && cargas == old(cargas) + [Text.Trim(old(filtroTexto))]
                && reparaciones == old(reparaciones)
                && filtroTexto == old(filtroTexto) && filtroAplicado == old(filtroAplicado)
      ensures old(FiltrosRecortados()) ==> FiltrosRecortados()
    {
      if filtrandoEnFirebase {
        return;
      }
      var filtroSeguro := Text.Trim(filtroTexto);
      CargarReparaciones(filtroSeguro);
    }

    /** `limpiarFiltro`: both filters emptied and an unfiltered load started, busy or not. */
    method LimpiarFiltro()
      requires Valid()
      modifies this
      ensures Valid()
      ensures filtroTexto == "" && filtroAplicado == ""
      ensures filtrandoEnFirebase && cargas == old(cargas) + [""]
      ensures reparaciones == old(reparaciones)
      ensures old(FiltrosRecortados()) ==> FiltrosRecortados()
    {
      filtroTexto := "";
      filtroAplicado := "";
      CargarReparaciones("");
    }

    /**
     * `registrar`: nothing happens unless the form is valid; a valid form is
     * written with `addEntry` and, once that succeeds, the list is reloaded
     * with the applied filter. A failed write changes nothing.
     */
    method Registrar(formValida: bool, valor: Document, store: Repair.RepairCollection,
                     now: Time, newId: string, remote: Option<Error>)
      requires Valid() && newId !in store.docs
      modifies this, store
      ensures Valid()
      ensures !formValida || remote.Some? ==> unchanged(this) && store.docs == old(store.docs)
      ensures formValida && remote.None? ==>
                && store.docs == old(store.docs)[newId := Repair.NuevaReparacion(valor, now)]
                && filtrandoEnFirebase && cargas == old(cargas) + [old(filtroAplicado)]
                && reparaciones == old(reparaciones)
                && filtroTexto == old(filtroTexto) && filtroAplicado == old(filtroAplicado)
      ensures old(FiltrosRecortados()) ==> FiltrosRecortados()
    {
      if formValida {
        var r := store.AddEntry(valor, now, newId, remote);
        if r.Success? {
          CargarReparaciones(filtroAplicado);
        }
      }
    }

    /**
     * `cambiarEstado`: the status write, then a reload with the applied
     * filter; a failed write is reported and reloads nothing.
     */
    method CambiarEstado(id: string, nuevo: Repair.Estado, store: Repair.RepairCollection,
                         now: Time, remote: Option<Error>)
      requires Valid()
      modifies this, store
      ensures Valid()
      ensures remote.Some? || id !in old(store.docs) ==> unchanged(this) && store.docs == old(store.docs)
      ensures remote.None? && id in old(store.docs) ==>
                && store.docs == old(store.docs)[id := Merge(old(store.docs)[id], Repair.CambioDeEstado(nuevo, now))]
                && filtrandoEnFirebase && cargas == old(cargas) + [old(filtroAplicado)]
                && reparaciones == old(reparaciones)
                && filtroTexto == old(filtroTexto) && filtroAplicado == old(filtroAplicado)
      ensures old(FiltrosRecortados()) ==> FiltrosRecortados()
    {
      var r := store.ActualizarEstado(id, nuevo, now, remote);
      if r.Success? {
        CargarReparaciones(filtroAplicado);
      }
    }
  }
}
