/**
  Agreement between the client and the server: what the client sends is
  what the server filters on, both name an export the same way, and the
  client's filter options are the server's status enum.
*/
module Wire {
  import opened Base
  import opened TaskStatus
  import opened TaskUtils
  import Server

  /** The client sends no `status` for the empty filter and the filter
      itself otherwise; the server then filters on exactly that value, and
      its attachment name is the file name the client saves under. */
  lemma ClientAndServerAgree(filter: string)
    ensures var sent := BuildTaskFilterParams(filter).status;
      && Server.GetStatusFilter(sent) == (if filter == "" then None else Some(filter))
      && Server.AttachmentFileName(sent) == BuildExportFileName(filter)
  {
  }

  /** The non-empty option values of the filter selector are the enum, in
      order, and the mark-completed request sends a value the server
      accepts. */
  lemma OptionsMatchEnum()
    ensures |StatusOptions| == |TaskStatuses| + 1
    ensures StatusOptions[0].value == ""
    ensures forall i :: 0 <= i < |TaskStatuses| ==> StatusOptions[i + 1].value == TaskStatuses[i]
    ensures IsValidTaskStatus(Some("completed"))
  {
  }

  /** Every filter the dashboard's selector offers passes the export's
      attachment-header check, so the dashboard never meets the 500 that a
      filter with a control or non-Latin-1 character gets. */
  lemma SelectorFiltersPassHeaderCheck(filter: string)
    requires exists i :: 0 <= i < |StatusOptions| && StatusOptions[i].value == filter
    ensures var sent := BuildTaskFilterParams(filter).status;
      !Truthy(sent) || Server.ValidHeaderValue(sent.value)
  {
    var i :| 0 <= i < |StatusOptions| && StatusOptions[i].value == filter;
    assert i == 0 || i == 1 || i == 2 || i == 3;
    assert Server.ValidHeaderValue("pending");
    assert Server.ValidHeaderValue("in-progress");
    assert Server.ValidHeaderValue("completed");
  }
}
