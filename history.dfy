/**
 * The upload history kept by the API: each successful upload stores one record, only
 * the five most recent records are kept, the history view lists them newest first,
 * and the PDF export reports on the newest one.
 */
module History {
  import opened Wrappers
  import opened Equipment

  /** A stored upload (the fields of the `EquipmentDataset` model, minus id and timestamp). */
  datatype Dataset = Dataset(
    fileName: string,
    dataJson: seq<Row>,
    typeDistribution: map<string, int>,
    totalCount: int,
    avgTemp: real,
    avgFlowrate: real,
    avgPressure: real)

  /** The `analytics` part of a CSV analysis; each key may be missing. */
  datatype Analytics = Analytics(avgTemp: Option<real>, avgFlowrate: Option<real>, avgPressure: Option<real>)

  /** The result of analysing an uploaded CSV; each key may be missing. */
  datatype Analysis = Analysis(
    totalCount: Option<int>,
    analytics: Option<Analytics>,
    typeDistribution: Option<map<string, int>>,
    data: Option<seq<Row>>)

  /** Most records the table keeps. */
  const HistoryLimit: nat := 5

  /** The record stored for an analysis: a missing count or average is 0, missing rows [], missing counts {}. */
  function RecordFor(fileName: string, a: Analysis): (d: Dataset)
    ensures d.fileName == fileName
    ensures a.data.None? ==> d.dataJson == []
    ensures a.data.Some? ==> d.dataJson == a.data.value
    ensures a.typeDistribution.None? ==> d.typeDistribution == map[]
    ensures a.typeDistribution.Some? ==> d.typeDistribution == a.typeDistribution.value
    ensures a.totalCount.None? ==> d.totalCount == 0
    ensures a.totalCount.Some? ==> d.totalCount == a.totalCount.value
    ensures a.analytics.None? ==> d.avgTemp == 0.0 && d.avgFlowrate == 0.0 && d.avgPressure == 0.0
    ensures a.analytics.Some? ==>
              d.avgTemp == a.analytics.value.avgTemp.GetOr(0.0) &&
              d.avgFlowrate == a.analytics.value.avgFlowrate.GetOr(0.0) &&
              d.avgPressure == a.analytics.value.avgPressure.GetOr(0.0)
  {
    var stats := a.analytics.GetOr(Analytics(None, None, None));
    Dataset(
      fileName,
      a.data.GetOr([]),
      a.typeDistribution.GetOr(map[]),
      a.totalCount.GetOr(0),
      stats.avgTemp.GetOr(0.0),
      stats.avgFlowrate.GetOr(0.0),
      stats.avgPressure.GetOr(0.0))
  }

  /** What the upload endpoint answers. */
  datatype UploadReply = Created(analysis: Analysis) | BadRequest(error: string)

  function StatusCode(reply: UploadReply): (code: int)
    ensures code == 201 <==> reply.Created?
    ensures code == 400 <==> reply.BadRequest?
  {
    match reply
    case Created(_) => 201
    case BadRequest(_) => 400
  }

  /** The table after an upload of `d`: appended, then the oldest deleted if more than five remain. */
  function AfterUpload(table: seq<Dataset>, d: Dataset): (r: seq<Dataset>)
    ensures |r| == if |table| < HistoryLimit then |table| + 1 else |table|
    ensures r == (table + [d])[|table| + 1 - |r|..]
  {
    var grown := table + [d];
    if |grown| > HistoryLimit then grown[1..] else grown
  }

  /**
   * An upload appends exactly one record, and removes exactly the oldest one when the
   * table already held five or more; nothing else changes.
   */
  lemma UploadAppendsAndEvicts(table: seq<Dataset>, d: Dataset)
    ensures |table| < HistoryLimit ==> AfterUpload(table, d) == table + [d]
    ensures |table| >= HistoryLimit ==> AfterUpload(table, d) == table[1..] + [d]
  {
    if |table| >= HistoryLimit {
      assert (table + [d])[1..] == table[1..] + [d];
    }
  }

  /** A table of at most five records stays within five, and the new record is the newest. */
  lemma UploadKeepsBound(table: seq<Dataset>, d: Dataset)
    requires |table| <= HistoryLimit
    ensures |AfterUpload(table, d)| <= HistoryLimit
    ensures |AfterUpload(table, d)| > 0 && AfterUpload(table, d)[|AfterUpload(table, d)| - 1] == d
  {
  }

  /** The table after uploading `ds` in order. */
  function AfterUploads(table: seq<Dataset>, ds: seq<Dataset>): seq<Dataset>
    decreases |ds|
  {
    if ds == [] then table else AfterUploads(AfterUpload(table, ds[0]), ds[1..])
  }

  /** The last `n` elements of `s` (all of them when there are fewer). */
  function LastN(s: seq<Dataset>, n: nat): (r: seq<Dataset>)
    ensures |r| == if |s| < n then |s| else n
  {
    if |s| <= n then s else s[|s| - n..]
  }

  /** After any series of uploads the table holds exactly the five most recent records. */
  lemma {:induction false} UploadsKeepMostRecent(table: seq<Dataset>, ds: seq<Dataset>)
    requires |table| <= HistoryLimit
    ensures AfterUploads(table, ds) == LastN(table + ds, HistoryLimit)
    decreases |ds|
  {
    if ds == [] {
      assert table + ds == table;
    } else {
      var next := AfterUpload(table, ds[0]);
      UploadsKeepMostRecent(next, ds[1..]);
      assert table + ds == (table + [ds[0]]) + ds[1..];
      if |table + [ds[0]]| > HistoryLimit {
        assert next + ds[1..] == (table + ds)[1..];
      } else {
        assert next + ds[1..] == table + ds;
      }
    }
  }

  /** The stored records ordered by upload time, newest first. */
  function NewestFirst(table: seq<Dataset>): (r: seq<Dataset>)
    ensures |r| == |table|
    ensures forall i :: 0 <= i < |table| ==> r[i] == table[|table| - 1 - i]
  {
    seq(|table|, i requires 0 <= i < |table| => table[|table| - 1 - i])
  }

  /** `HistoryView.get`: the newest five records, newest first. */
  function HistoryList(table: seq<Dataset>): (h: seq<Dataset>)
    ensures |h| <= HistoryLimit
  {
    var ordered := NewestFirst(table);
    ordered[..if |ordered| < HistoryLimit then |ordered| else HistoryLimit]
  }

  /** The history lists the min(5, n) most recent records, from the newest backwards. */
  lemma HistoryIsMostRecent(table: seq<Dataset>)
    ensures |HistoryList(table)| == if |table| < HistoryLimit then |table| else HistoryLimit
    ensures forall i :: 0 <= i < |HistoryList(table)| ==> HistoryList(table)[i] == table[|table| - 1 - i]
  {
  }

  /** A table the upload endpoint kept within bounds is listed in full. */
  lemma HistoryShowsWholeBoundedTable(table: seq<Dataset>)
    requires |table| <= HistoryLimit
    ensures forall j :: 0 <= j < |table| ==> table[j] in HistoryList(table)
  {
    forall j | 0 <= j < |table| ensures table[j] in HistoryList(table) {
      assert HistoryList(table)[|table| - 1 - j] == table[j];
    }
  }

  /** Right after an upload, the uploaded record heads the history list. */
  lemma HistoryStartsWithLatestUpload(table: seq<Dataset>, d: Dataset)
    ensures |HistoryList(AfterUpload(table, d))| > 0
    ensures HistoryList(AfterUpload(table, d))[0] == d
  {
  }

  /** What the PDF report prints about a record. */
  datatype Report = Report(fileName: string, totalCount: int, avgTemp: real, avgFlowrate: real, avgPressure: real)

  /** What the export endpoint answers. */
  datatype ExportReply = NotFound(error: string) | Pdf(report: Report)

  function ReportOf(d: Dataset): Report
  {
    Report(d.fileName, d.totalCount, d.avgTemp, d.avgFlowrate, d.avgPressure)
  }

  /** `ExportPDFView.get`: 404 without records, otherwise a report on the newest record. */
  function ExportPdf(table: seq<Dataset>): (r: ExportReply)
    ensures r.NotFound? <==> table == []
    ensures r.Pdf? ==> r.report == ReportOf(table[|table| - 1])
  {
    var ordered := NewestFirst(table);
    if |ordered| == 0 then NotFound("No data found") else Pdf(ReportOf(ordered[0]))
  }

  /** The export reports on the record the history lists first. */
  lemma ExportMatchesHistoryHead(table: seq<Dataset>)
    requires table != []
    ensures ExportPdf(table) == Pdf(ReportOf(HistoryList(table)[0]))
  {
  }

  /** The table of stored uploads, oldest first. */
  class DatasetTable {
    var rows: seq<Dataset>

    constructor ()
      ensures rows == []
    {
      rows := [];
    }

    /**
     * `EquipmentUploadView.post`, given the uploaded file's name (`None` when no file was
     * sent) and the outcome of analysing it (`Failure` carries the exception's message).
     */
    method Post(file: Option<string>, analysis: Result<Analysis, string>) returns (reply: UploadReply)
      modifies this
      ensures file.None? ==> reply == BadRequest("No file uploaded") && rows == old(rows)
      ensures file.Some? && analysis.Failure? ==> reply == BadRequest(analysis.error) && rows == old(rows)
      ensures file.Some? && analysis.Success? ==>
                reply == Created(analysis.value) &&
                rows == AfterUpload(old(rows), RecordFor(file.value, analysis.value))
      ensures |old(rows)| <= HistoryLimit ==> |rows| <= HistoryLimit
    {
      if file.None? {
        return BadRequest("No file uploaded");
      }
      match analysis
      case Failure(e) =>
        return BadRequest(e);
      case Success(a) =>
        rows := rows + [RecordFor(file.value, a)];
        if |rows| > HistoryLimit {
          rows := rows[1..];
        }
        return Created(a);
    }
  }
}
