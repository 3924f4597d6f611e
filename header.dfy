/** The GADF classification keywords of an IRF table header. Only the choice
    of HDUCLAS2 depends on the IRF type; the other keywords are fixed
    strings or the creation date. */
module Header {

  datatype Option<T> = None | Some(value: T)

  /** The IRF types the writers pass to write_fits_table_header. */
  const KnownIrfTypes: set<string> := {"PSF_3GAUSS", "BKG_2D", "AEFF_2D", "EDISP_2D"}

  /** The HDUCLAS2 value written for an IRF type; None means the keyword is
      not written at all. */
  function HduClas2(irfType: string): (clas2: Option<string>)
    ensures clas2.Some? <==> irfType in KnownIrfTypes
    ensures clas2.Some? ==> clas2.value in {"PSF", "BKG", "EFF_AREA", "EDISP"}
  {
    if irfType == "PSF_3GAUSS" then Some("PSF")
    else if irfType == "BKG_2D" then Some("BKG")
    else if irfType == "AEFF_2D" then Some("EFF_AREA")
    else if irfType == "EDISP_2D" then Some("EDISP")
    else None
  }

  /** The IRF type an HDUCLAS2 value was written for, read back. */
  function IrfTypeOf(clas2: string): (irfType: Option<string>)
    ensures irfType.Some? ==> irfType.value in KnownIrfTypes
  {
    if clas2 == "PSF" then Some("PSF_3GAUSS")
    else if clas2 == "BKG" then Some("BKG_2D")
    else if clas2 == "EFF_AREA" then Some("AEFF_2D")
    else if clas2 == "EDISP" then Some("EDISP_2D")
    else None
  }

  /** Reading HDUCLAS2 back recovers the IRF type it was written for, so
      distinct IRF types never share an HDUCLAS2 value. */
  lemma HduClas2RoundTrip(irfType: string)
    requires irfType in KnownIrfTypes
    ensures IrfTypeOf(HduClas2(irfType).value) == Some(irfType)
  {
  }

  lemma HduClas2Injective(t1: string, t2: string)
    requires HduClas2(t1).Some? && HduClas2(t1) == HduClas2(t2)
    ensures t1 == t2
  {
  }
}
