/** Form data on its way through an exported cURL command: the rows of an encoded form come back, and what
    is lost when another body is taken for a form. */
module CurlForms {
  import opened Text
  import opened Model
  import opened ShellWords
  import opened Curl
  import opened CurlRoundTrip

  /** What is assumed of `url.QueryEscape` and `url.QueryUnescape`. */
  ghost predicate IsCodec(esc: Escape, un: Unescape) {
    forall x: string :: un(esc(x)) == Some(x) && '&' !in esc(x) && '=' !in esc(x)
  }

  function EncodedRow(row: KeyValue, esc: Escape): string { esc(row.key) + ['='] + esc(row.value) }

  function EncodedRows(rows: seq<KeyValue>, esc: Escape): (parts: seq<string>)
    ensures |parts| == |rows|
  {
    seq(|rows|, i requires 0 <= i < |rows| => EncodedRow(rows[i], esc))
  }

  /** The body of a form with these rows, in the order `url.Values` lists them. */
  function EncodedForm(rows: seq<KeyValue>, esc: Escape): string { Join(EncodedRows(rows, esc), "&") }

  /** What the importer can return of a row list: enabled rows without descriptions, none without a key. */
  function Readable(rows: seq<KeyValue>): seq<KeyValue> {
    if rows == [] then []
    else
      var rest, row := Readable(rows[..|rows| - 1]), rows[|rows| - 1];
      if row.key == "" then rest else rest + [Enabled(row.key, row.value)]
  }

  lemma RowReads(row: KeyValue, esc: Escape, un: Unescape)
    requires IsCodec(esc, un)
    ensures EncodedRow(row, esc) != "" && '&' !in EncodedRow(row, esc)
    ensures FormRow(EncodedRow(row, esc), un) == Enabled(row.key, row.value)
  {
    var part, k := EncodedRow(row, esc), esc(row.key);
    assert part[|k|] == '=' && part[..|k|] == k && part[|k| + 1..] == esc(row.value);
    IndexOfIs(part, '=', |k|);
  }

  lemma {:induction false} RowsRead(rows: seq<KeyValue>, esc: Escape, un: Unescape)
    requires IsCodec(esc, un)
    ensures FormRows(EncodedRows(rows, esc), un) == Readable(rows)
  {
    hide EncodedRow, FormRow;
    if rows != [] {
      var n := |rows| - 1;
      RowReads(rows[n], esc, un);
      RowsRead(rows[..n], esc, un);
      assert EncodedRows(rows, esc)[..n] == EncodedRows(rows[..n], esc);
    }
  }

  /** Reading the data of a form gives its rows back, in order, as far as they have a key. */
  lemma {:induction false} FormReads(rows: seq<KeyValue>, esc: Escape, un: Unescape)
    requires IsCodec(esc, un)
    ensures FormRows(Split(EncodedForm(rows, esc), '&'), un) == Readable(rows)
  {
    hide EncodedRow, FormRow, IsCodec;
    var parts := EncodedRows(rows, esc);
    if rows == [] {
      assert Split("", '&') == [""] && [""][..0] == [];
    } else {
      forall p <- parts
        ensures '&' !in p
      {
        var i :| 0 <= i < |rows| && p == EncodedRow(rows[i], esc);
        RowReads(rows[i], esc, un);
      }
      SplitJoin(parts, '&');
      RowsRead(rows, esc, un);
    }
  }

  /** So an exported form, recognized by its Content-Type, is imported as the form it was. */
  lemma {:induction false} FormRoundTrip(req: HttpRequest, s: Settings, rows: seq<KeyValue>, esc: Escape, un: Unescape)
    requires IsCodec(esc, un) && Exportable(req) && rows != [] && req.body == EncodedForm(rows, esc)
    requires KindOf(req.body, LastContentType(Fields(req))) == Form
    ensures ImportOf(Command(CurlLines(req, s)), esc, un)
         == Imported(req.httpMethod, req.url, Rows(Fields(req)), Body("form-urlencoded", "", Readable(rows), "", "", ""), BareAuth(""))
  {
    hide IsCodec, Exportable, KindOf, Fields, FormRows, EncodedRows, ImportOf, CurlLines;
    ImportOfExport(req, s, esc, un);
    FormReads(rows, esc, un);
    EncodedIsNotEmpty(rows, esc, un);
  }

  lemma {:induction false} EncodedIsNotEmpty(rows: seq<KeyValue>, esc: Escape, un: Unescape)
    requires IsCodec(esc, un) && rows != []
    ensures EncodedForm(rows, esc) != ""
  {
    RowReads(rows[0], esc, un);
  }

  // ----- bodies taken for forms -----

  lemma {:induction false} EmptyPartSkipped(ps: seq<string>, qs: seq<string>, un: Unescape)
    ensures FormRows(ps + [""] + qs, un) == FormRows(ps + qs, un)
  {
    hide FormRow;
    var all := ps + [""] + qs;
    if qs == [] {
      assert all[..|all| - 1] == ps && ps + qs == ps;
    } else {
      var n := |qs| - 1;
      assert all[..|all| - 1] == ps + [""] + qs[..n] && (ps + qs)[..|ps + qs| - 1] == ps + qs[..n];
      EmptyPartSkipped(ps, qs[..n], un);
    }
  }

  /** The rows of form data do not tell one ampersand from two. */
  lemma {:induction false} AmpersandsCollapse(x: string, y: string, un: Unescape)
    ensures FormRows(Split(x + ['&'] + (['&'] + y), '&'), un) == FormRows(Split(x + ['&'] + y, '&'), un)
  {
    SplitAppend(x, '&', ['&'] + y);
    SplitAppend(x, '&', y);
    assert "" + ['&'] + y == ['&'] + y;
    SplitAppend("", '&', y);
    assert Split(x, '&') + ([""] + Split(y, '&')) == Split(x, '&') + [""] + Split(y, '&');
    EmptyPartSkipped(Split(x, '&'), Split(y, '&'), un);
  }

  /** Without a Content-Type a text that looks like a form is imported as one, and its exact bytes are
      lost: these two come back alike. */
  lemma {:induction false} TextTakenForForm(un: Unescape)
    ensures KindOf("a=1&&b=2", "") == KindOf("a=1&b=2", "") == Form
    ensures BodyFromData("a=1&&b=2", "", un) == BodyFromData("a=1&b=2", "", un)
  {
    hide FormRows, Split;
    assert "a=1" + ['&'] + (['&'] + "b=2") == "a=1&&b=2" && "a=1" + ['&'] + "b=2" == "a=1&b=2";
    AmpersandsCollapse("a=1", "b=2", un);
    TrimSpaceFixed("a=1&&b=2");
    TrimSpaceFixed("a=1&b=2");
    assert "a=1&&b=2"[1] == '=' && "a=1&b=2"[1] == '=';
  }
}
