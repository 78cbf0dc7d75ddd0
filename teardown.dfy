/**
 * newSender's error path.  newSender mallocs the sender, then allocates its
 * table of input buffers and its staging buffer; when either allocation
 * fails it hands the half-built sender to deleteSender, which tests the
 * table pointer and passes the staging pointer to deleteBuffer.  Whatever
 * deleteSender reads must therefore have been assigned.
 */
module Teardown {
  import opened Schedule

  /** One pointer field of the malloc'd sender: never assigned, NULL, or an allocation. */
  datatype Pointer = Unassigned | Null | Live

  /** The sender's two owned pointer fields. */
  datatype Fields = Fields(table: Pointer, staging: Pointer)

  /** deleteSender reads both fields, so neither may be unassigned. */
  predicate SafeToDelete(f: Fields) {
    f.table != Unassigned && f.staging != Unassigned
  }

  /**
   * The fields newSender hands to deleteSender, as written, given the
   * outcomes of the table and staging allocations; None when it does not
   * call deleteSender (both succeeded).  malloc leaves both fields
   * unassigned, the table is assigned at once, and the staging pointer only
   * after the table was filled.
   */
  function CleanupFieldsAsWritten(tableAllocated: bool, stagingAllocated: bool): (r: Option<Fields>)
    ensures r.Some? <==> !(tableAllocated && stagingAllocated)
    ensures r.Some? ==> (r.value.table == Live <==> tableAllocated)
    ensures r.Some? ==> (r.value.staging == Unassigned <==> !tableAllocated)
    ensures r.Some? ==> r.value.staging != Live
  {
    var blank := Fields(Unassigned, Unassigned);
    var withTable := blank.(table := if tableAllocated then Live else Null);
    if !tableAllocated then Some(withTable)
    else
      var withStaging := withTable.(staging := if stagingAllocated then Live else Null);
      if !stagingAllocated then Some(withStaging) else None
  }

  /**
   * When the table allocation fails, the code as written hands deleteSender
   * a sender whose staging pointer was never assigned.
   */
  lemma AsWrittenReleasesUnassignedStaging()
    ensures CleanupFieldsAsWritten(false, true) == Some(Fields(Null, Unassigned))
    ensures !SafeToDelete(CleanupFieldsAsWritten(false, true).value)
  {
  }

  /**
   * The error path with the staging pointer set to NULL together with the
   * table pointer, before anything can fail: deleteSender then only ever
   * reads assigned fields, and a failure releases nothing that was not built.
   */
  function CleanupFields(tableAllocated: bool, stagingAllocated: bool): (r: Option<Fields>)
    ensures r.Some? <==> !(tableAllocated && stagingAllocated)
    ensures r.Some? ==> SafeToDelete(r.value)
    ensures r.Some? ==> (r.value.table == Live <==> tableAllocated)
    ensures r.Some? ==> r.value.staging == Null
  {
    var blank := Fields(Unassigned, Unassigned);
    var cleared := blank.(staging := Null);
    var withTable := cleared.(table := if tableAllocated then Live else Null);
    if !tableAllocated then Some(withTable)
    else
      var withStaging := withTable.(staging := if stagingAllocated then Live else Null);
      if !stagingAllocated then Some(withStaging) else None
  }
}
