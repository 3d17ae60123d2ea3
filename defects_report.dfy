/**
 * The cloud function that writes the report of recently changed defects
 * (cloud-functions/createChangedDefectsReport/index.js): its configuration check, the rendering
 * of dates, the one-hour filter, the HTML it assembles and the name of the file it saves.
 * Firestore and the storage bucket are seen only through the documents read and the file
 * written; the clock is a parameter, and so is the split of a time value into its UTC fields.
 */
module DefectsReport {
  import opened Wrappers
  import opened Text

  /** The environment the function needs before it can serve anything. */
  datatype Config = Config(dbId: string, bucketId: string)

  /** Loading fails on a missing database id first, then on a missing bucket id. */
  function LoadConfig(firestoreDbId: Option<string>, gcsBucketId: Option<string>): (r: Result<Config, string>)
    ensures r.Success? <==> firestoreDbId.Some? && gcsBucketId.Some?
    ensures r.Success? ==> r.value == Config(firestoreDbId.value, gcsBucketId.value)
    ensures firestoreDbId.None? ==> r == Failure("FIRESTORE_DB_ID is not defined")
    ensures firestoreDbId.Some? && gcsBucketId.None? ==> r == Failure("GCS_BUCKET_ID is not defined")
  {
    if firestoreDbId.None? then Failure("FIRESTORE_DB_ID is not defined")
    else if gcsBucketId.None? then Failure("GCS_BUCKET_ID is not defined")
    else Success(Config(firestoreDbId.value, gcsBucketId.value))
  }

  /** The UTC fields of a date; the month counts from 0, as `getUTCMonth` does. */
  datatype UtcFields = UtcFields(year: int, month: int, date: int, hours: int, minutes: int, seconds: int)

  /** `String(n).padStart(2, "0")`. */
  function Two(n: int): string {
    PadStart2(IntToString(n))
  }

  /** `toReadableDate` of a valid date: "YYYY-MM-DD HH:MM:SS UTC", the month counted from 1. */
  function ToReadableDate(f: UtcFields): string {
    IntToString(f.year) + "-" + Two(f.month + 1) + "-" + Two(f.date) + " "
      + Two(f.hours) + ":" + Two(f.minutes) + ":" + Two(f.seconds) + " UTC"
  }

  /** `toReadableDate` of an invalid date: every field is NaN, which padding leaves alone. */
  const InvalidReadableDate := "NaN-NaN-NaN NaN:NaN:NaN UTC"

  /** A stored time value rendered; None stands for a value `new Date` cannot read. */
  function ReadableDate(t: Option<int>, toUtc: int -> UtcFields): string {
    if t.Some? then ToReadableDate(toUtc(t.value)) else InvalidReadableDate
  }

  /** A number below 100 becomes exactly two digits that read back as the number. */
  lemma TwoDigits(n: int)
    requires 0 <= n < 100
    ensures |Two(n)| == 2 && AllDigits(Two(n)) && DecimalValue(Two(n)) == n
  {
    var s := NatToDecimal(n);
    NatToDecimalLength(n);
    DecimalRoundTrip(n);
    if n < 10 {
      var p := Two(n);
      assert p == "0" + s;
      assert p[..1] == "0";
      assert DecimalValue(p[..1]) == 0 by {
        assert p[..1][..0] == [];
      }
    }
  }

  /** Where the pieces of a rendered date sit, for any two-character pieces. */
  lemma {:induction false} Layout(y: string, mo: string, d: string, h: string, mi: string, s: string)
    requires |mo| == 2 && |d| == 2 && |h| == 2 && |mi| == 2 && |s| == 2
    ensures var r := y + "-" + mo + "-" + d + " " + h + ":" + mi + ":" + s + " UTC"; var n := |y|;
      && |r| == n + 19
      && r[..n] == y && r[n] == '-' && r[n + 1..n + 3] == mo && r[n + 3] == '-' && r[n + 4..n + 6] == d
      && r[n + 6] == ' ' && r[n + 7..n + 9] == h && r[n + 9] == ':' && r[n + 10..n + 12] == mi
      && r[n + 12] == ':' && r[n + 13..n + 15] == s && r[n + 15..] == " UTC"
  {
    var n := |y|;
    var tail := "-" + mo + "-" + d + " " + h + ":" + mi + ":" + s + " UTC";
    var r := y + "-" + mo + "-" + d + " " + h + ":" + mi + ":" + s + " UTC";
    assert r == y + tail;
    assert r[n..] == tail;
    assert tail[1..3] == mo && tail[4..6] == d && tail[7..9] == h && tail[10..12] == mi && tail[13..15] == s;
    assert tail[15..] == " UTC";
  }

  /**
   * The layout of a rendered date whose year takes `n` characters: the year, then month, day,
   * hours, minutes and seconds as two digits each that read back as the fields, with the
   * separators and the zone in fixed places.
   */
  predicate ReadsBackAs(r: string, n: nat, f: UtcFields)
    requires |r| == n + 19
  {
    && r[..n] == IntToString(f.year) && r[n] == '-' && r[n + 3] == '-' && r[n + 6] == ' '
    && r[n + 9] == ':' && r[n + 12] == ':' && r[n + 15..] == " UTC"
    && AllDigits(r[n + 1..n + 3]) && DecimalValue(r[n + 1..n + 3]) == f.month + 1
    && AllDigits(r[n + 4..n + 6]) && DecimalValue(r[n + 4..n + 6]) == f.date
    && AllDigits(r[n + 7..n + 9]) && DecimalValue(r[n + 7..n + 9]) == f.hours
    && AllDigits(r[n + 10..n + 12]) && DecimalValue(r[n + 10..n + 12]) == f.minutes
    && AllDigits(r[n + 13..n + 15]) && DecimalValue(r[n + 13..n + 15]) == f.seconds
  }

  /** A valid date renders to its year unpadded followed by nineteen characters laid out as above. */
  lemma ReadableDateRoundTrip(f: UtcFields)
    requires f.year >= 0 && 0 <= f.month < 12 && 1 <= f.date <= 31
    requires 0 <= f.hours < 24 && 0 <= f.minutes < 60 && 0 <= f.seconds < 60
    ensures |ToReadableDate(f)| == |IntToString(f.year)| + 19
    ensures ReadsBackAs(ToReadableDate(f), |IntToString(f.year)|, f)
  {
    var y, mo, d, h, mi, se := IntToString(f.year), Two(f.month + 1), Two(f.date), Two(f.hours), Two(f.minutes), Two(f.seconds);
    assert ToReadableDate(f) == y + "-" + mo + "-" + d + " " + h + ":" + mi + ":" + se + " UTC";
    TwoDigits(f.month + 1);
    TwoDigits(f.date);
    TwoDigits(f.hours);
    TwoDigits(f.minutes);
    TwoDigits(f.seconds);
    Layout(y, mo, d, h, mi, se);
  }

  /** A defect document as the report reads it: the document id and the stored fields it prints. */
  datatype DefectDoc = DefectDoc(
    id: string, defectObject: string, location: string, reportingDate: Option<int>,
    status: string, lastModifiedAt: Option<int>, imageNames: seq<string>)

  const OneHour := 60 * 60 * 1000

  /** A defect counts as changed when its last change is strictly later than one hour before now. */
  predicate IsChanged(d: DefectDoc, now: int) {
    d.lastModifiedAt.Some? && d.lastModifiedAt.value > now - OneHour
  }

  /** `defects.filter(...)`: the changed defects, in the order they were read. */
  function Changed(ds: seq<DefectDoc>, now: int): (r: seq<DefectDoc>)
    ensures |r| <= |ds|
  {
    if ds == [] then []
    else (if IsChanged(ds[0], now) then [ds[0]] else []) + Changed(ds[1..], now)
  }

  /** A defect is in the report exactly when it was read and has changed within the hour. */
  lemma {:induction false} ChangedMembers(ds: seq<DefectDoc>, now: int)
    ensures forall d :: d in Changed(ds, now) <==> d in ds && IsChanged(d, now)
  {
    if ds != [] {
      ChangedMembers(ds[1..], now);
      assert ds == [ds[0]] + ds[1..];
    }
  }

  /** Filtering distributes over concatenation, so the report keeps the order of the documents. */
  lemma {:induction false} ChangedAppend(a: seq<DefectDoc>, b: seq<DefectDoc>, now: int)
    ensures Changed(a + b, now) == Changed(a, now) + Changed(b, now)
  {
    if a != [] {
      assert (a + b)[1..] == a[1..] + b;
      ChangedAppend(a[1..], b, now);
    } else {
      assert a + b == b;
    }
  }

  /** A change exactly one hour ago is left out; one a millisecond later is kept; an unreadable time is left out. */
  lemma ChangedBoundary(d: DefectDoc, now: int)
    ensures d.lastModifiedAt == Some(now - OneHour) ==> !IsChanged(d, now)
    ensures d.lastModifiedAt == Some(now - OneHour + 1) ==> IsChanged(d, now)
    ensures d.lastModifiedAt.None? ==> !IsChanged(d, now)
  {
  }

  const ReportTitle := "Changed defects"

  /** The opening of the page, up to the report date, and what closes the date's paragraph. */
  function Header(reportDate: string): string {
    HeadOpen + reportDate + HeadClose
  }

  const HeadOpen := "\n        <!DOCTYPE html>\n        <html lang=\"en\">\n        <head>\n"
    + "            <meta charset=\"UTF-8\">\n"
    + "            <meta http-equiv=\"X-UA-Compatible\" content=\"IE=edge\">\n"
    + "            <meta name=\"viewport\" content=\"width=device-width, initial-scale=1.0\">\n"
    + "            <title>" + ReportTitle + "</title>\n"
    + "            <style>\n"
    + "                body { font-family: Arial, sans-serif; }\n"
    + "                .defect { border: 1px solid #ddd; padding: 10px; margin-bottom: 10px; }\n"
    + "                h1, h3 { color: #333; }\n"
    + "            </style>\n        </head>\n        <body>\n"
    + "            <h1>" + ReportTitle + "</h1>\n"
    + "            <p><strong>Report Date:</strong> "
  const HeadClose := "</p>\n    "

  /** The fixed text of a defect block, before each printed field and after the last. */
  const IdLabel := "\n            <div class=\"defect\">\n                <p><strong>ID:</strong> "
  const ObjectLabel := "</p>\n                <p><strong>Object:</strong> "
  const LocationLabel := "</p>\n                <p><strong>Location:</strong> "
  const ReportingDateLabel := "</p>\n                <p><strong>Reporting Date:</strong> "
  const StatusLabel := "</p>\n                <p><strong>Status:</strong> "
  const LastModifiedLabel := "</p>\n                <p><strong>Last Modified At:</strong> "
  const ImageNamesLabel := "</p>\n                <p><strong>Image Names:</strong> "
  const BlockClose := "</p>\n            </div>\n        "

  /** The block of one defect: id, object, location, reporting date, status, last change and images. */
  function Block(d: DefectDoc, toUtc: int -> UtcFields): string {
    IdLabel + d.id + ObjectLabel + d.defectObject + LocationLabel + d.location
    + ReportingDateLabel + ReadableDate(d.reportingDate, toUtc) + StatusLabel + d.status
    + LastModifiedLabel + ReadableDate(d.lastModifiedAt, toUtc) + ImageNamesLabel + Join(d.imageNames, ", ")
    + BlockClose
  }

  const Footer := "\n        </body>\n        </html>\n    "

  /** The blocks of a list of defects, one after the other in list order. */
  function Blocks(ds: seq<DefectDoc>, toUtc: int -> UtcFields): string {
    if ds == [] then "" else Blocks(ds[..|ds| - 1], toUtc) + Block(ds[|ds| - 1], toUtc)
  }

  lemma BlocksSnoc(ds: seq<DefectDoc>, d: DefectDoc, toUtc: int -> UtcFields)
    ensures Blocks(ds + [d], toUtc) == Blocks(ds, toUtc) + Block(d, toUtc)
  {
    var e := ds + [d];
    assert e[..|e| - 1] == ds && e[|e| - 1] == d;
  }

  lemma BlocksStep(ds: seq<DefectDoc>, i: nat, toUtc: int -> UtcFields)
    requires i < |ds|
    ensures Blocks(ds[..i + 1], toUtc) == Blocks(ds[..i], toUtc) + Block(ds[i], toUtc)
  {
    assert ds[..i + 1] == ds[..i] + [ds[i]];
    BlocksSnoc(ds[..i], ds[i], toUtc);
  }

  /** The blocks of two lists are the blocks of the first followed by those of the second. */
  lemma {:induction false} BlocksAppend(a: seq<DefectDoc>, b: seq<DefectDoc>, toUtc: int -> UtcFields)
    ensures Blocks(a + b, toUtc) == Blocks(a, toUtc) + Blocks(b, toUtc)
  {
    if b != [] {
      var n := |b| - 1;
      assert (a + b)[..|a + b| - 1] == a + b[..n];
      BlocksAppend(a, b[..n], toUtc);
      ConcatAssoc(Blocks(a, toUtc), Blocks(b[..n], toUtc), Block(b[n], toUtc));
    } else {
      assert a + b == a;
    }
  }

  /** The report file's name: the first ':' of the ISO timestamp becomes '-'. */
  function FileName(isoReportDate: string): string {
    "defects-report-" + ReplaceFirst(isoReportDate, ':', '-') + ".html"
  }

  /** Only the first ':' is replaced: what precedes it is kept, and every later ':' stays. */
  lemma ReplaceOnlyFirst(s: string)
    requires ':' in s
    ensures var k := IndexOf(s, ':'); var r := ReplaceFirst(s, ':', '-');
      && |r| == |s| && r[..k] == s[..k] && r[k] == '-' && r[k + 1..] == s[k + 1..]
      && Count(r, ':') == Count(s, ':') - 1
  {
    var k := IndexOf(s, ':');
    var p, q := s[..k], s[k + 1..];
    UpdateAt(s, k, '-');
    Around(p, ':', q);
    Around(p, '-', q);
    CountAround(p, ':', q, ':');
    CountAround(p, '-', q, ':');
  }

  /** Changing one place keeps what is before and after it. */
  lemma UpdateAt(s: string, k: nat, d: char)
    requires k < |s|
    ensures s == s[..k] + [s[k]] + s[k + 1..]
    ensures s[k := d] == s[..k] + [d] + s[k + 1..]
  {
  }

  lemma Around(p: string, x: char, q: string)
    ensures var r := p + [x] + q; |r| == |p| + 1 + |q| && r[..|p|] == p && r[|p|] == x && r[|p| + 1..] == q
  {
  }

  lemma CountAround(p: string, x: char, q: string, c: char)
    ensures Count(p + [x] + q, c) == Count(p, c) + (if x == c then 1 else 0) + Count(q, c)
  {
    CountConcat(p + [x], q, c);
    CountConcat(p, [x], c);
    assert [x][..0] == [];
  }

  lemma {:induction false} CountConcat(a: string, b: string, c: char)
    ensures Count(a + b, c) == Count(a, c) + Count(b, c)
  {
    if b != [] {
      assert (a + b)[..|a + b| - 1] == a + b[..|b| - 1];
      CountConcat(a, b[..|b| - 1], c);
    } else {
      assert a + b == a;
    }
  }

  /**
   * An ISO timestamp "<date>T<hh>:<mm>:<ss>.<ms>Z" has its hours-minutes colon turned into '-':
   * whatever precedes the first ':' is kept, and the rest, later colons included, follows the '-'.
   */
  lemma FileNameOfTimestamp(p: string, rest: string)
    requires ':' !in p && rest != [] && rest[0] == ':'
    ensures FileName(p + rest) == "defects-report-" + p + "-" + rest[1..] + ".html"
  {
    IndexOfAfter(p, rest, ':');
    UpdateAt(p + rest, |p|, '-');
    assert (p + rest)[..|p|] == p && (p + rest)[|p| + 1..] == rest[1..];
    ConcatAssoc("defects-report-", p + "-", rest[1..]);
    ConcatAssoc("defects-report-", p, "-");
  }

  /**
   * The handler: the defects changed within the hour before `now` are rendered one block each,
   * in the order they were read, between the header carrying the report date and the footer;
   * the page is saved under the name derived from the ISO form of the report date.
   */
  method CreateChangedDefectsReport(docs: seq<DefectDoc>, now: int, reportDate: int, isoReportDate: string,
                                    toUtc: int -> UtcFields)
    returns (fileName: string, html: string, response: string)
    ensures html == Header(ToReadableDate(toUtc(reportDate))) + Blocks(Changed(docs, now), toUtc) + Footer
    ensures fileName == FileName(isoReportDate)
    ensures response == "Report saved to " + fileName
  {
    html := RenderReport(Changed(docs, now), ToReadableDate(toUtc(reportDate)), toUtc);
    fileName, response := SaveReport(isoReportDate);
  }

  /** The file the page is saved to, and the answer naming it. */
  method SaveReport(isoReportDate: string) returns (fileName: string, response: string)
    ensures fileName == FileName(isoReportDate)
    ensures response == "Report saved to " + fileName
  {
    fileName := FileName(isoReportDate);
    response := "Report saved to " + fileName;
  }

  /** The page: the header with the report date, one block per defect in list order, the footer. */
  method RenderReport(changedDefects: seq<DefectDoc>, reportDate: string, toUtc: int -> UtcFields) returns (html: string)
    ensures html == Header(reportDate) + Blocks(changedDefects, toUtc) + Footer
  {
    html := Header(reportDate);
    html := AppendBlocks(html, changedDefects, toUtc);
    html := html + Footer;
  }

  /** The `forEach` that appends one block per defect, in list order. */
  method AppendBlocks(start: string, ds: seq<DefectDoc>, toUtc: int -> UtcFields) returns (html: string)
    ensures html == start + Blocks(ds, toUtc)
  {
    html := start;
    for i := 0 to |ds|
      invariant html == start + Blocks(ds[..i], toUtc)
    {
      BlocksStep(ds, i, toUtc);
      ConcatAssoc(start, Blocks(ds[..i], toUtc), Block(ds[i], toUtc));
      html := html + Block(ds[i], toUtc);
    }
    assert ds[..|ds|] == ds;
  }

  /** The page of a list read in two parts is the page with the blocks of both parts in order. */
  lemma ReportKeepsOrder(a: seq<DefectDoc>, b: seq<DefectDoc>, now: int, toUtc: int -> UtcFields)
    ensures Blocks(Changed(a + b, now), toUtc) == Blocks(Changed(a, now), toUtc) + Blocks(Changed(b, now), toUtc)
  {
    ChangedAppend(a, b, now);
    BlocksAppend(Changed(a, now), Changed(b, now), toUtc);
  }
}
