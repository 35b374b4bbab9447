/** The subject-hours rows the administrator saves (`PUT
    /api/admin/subject-hours` and the configuration save): a body that is not
    an array counts as no rows; a row is kept when it is truthy and has a
    truthy `subject`, a truthy `grade` and a numeric `hours`; a kept row
    becomes `{subject: String(subject), grade: parseInt(grade), hours:
    parseInt(hours)}`. The response reports how many rows were kept. */
module HoursNormalize {
  import opened Wrappers
  import opened Seqs
  import opened Json
  import opened Records

  /** A normalised row. `None` stands for the `NaN` that `parseInt` gives
      for a text without leading digits. */
  datatype HoursRow = HoursRow(subject: string, grade: Option<int>, hours: Option<int>)

  /** `Array.isArray(body) ? body : []`. */
  function Rows(body: JsonValue): seq<JsonValue>
  {
    if body.JArr? then body.items else []
  }

  /** The filter's test. */
  predicate Keep(r: JsonValue)
  {
    Truthy(Some(r)) && Truthy(Field(r, "subject")) && Truthy(Field(r, "grade"))
    && Field(r, "hours").Some? && Field(r, "hours").value.JNum?
  }

  /** The map's conversion of a kept row. */
  function NormalizeRow(r: JsonValue): HoursRow
    requires Keep(r)
  {
    HoursRow(ToStr(Field(r, "subject").value), ParseIntValue(Field(r, "grade").value),
             ParseIntValue(Field(r, "hours").value))
  }

  /** `rows.filter(keep).map(normalizeRow)`. */
  function Normalize(rows: seq<JsonValue>): seq<HoursRow>
  {
    if rows == [] then []
    else
      var last := rows[|rows| - 1];
      Normalize(rows[..|rows| - 1]) + (if Keep(last) then [NormalizeRow(last)] else [])
  }

  /** The rows the handler saves for a request body. */
  function NormalizeBody(body: JsonValue): seq<HoursRow>
  {
    Normalize(Rows(body))
  }

  /** The normalised list is the kept rows, converted one by one in their
      order; each keeps the numeric hours it was sent with. */
  lemma {:induction false} NormalizeIsFilterThenMap(rows: seq<JsonValue>)
    ensures var kept := Filter(rows, Keep);
      |Normalize(rows)| == |kept|
      && (forall i :: 0 <= i < |kept| ==> Keep(kept[i]) && Normalize(rows)[i] == NormalizeRow(kept[i]))
  {
    if rows != [] {
      NormalizeIsFilterThenMap(rows[..|rows| - 1]);
    }
  }

  /** A kept row is an object and its hours come out as the number sent. */
  lemma {:induction false} KeptRow(r: JsonValue)
    requires Keep(r)
    ensures r.JObj?
    ensures NormalizeRow(r).hours == Some(Field(r, "hours").value.n)
  {
    ParseIntOfNumber(Field(r, "hours").value.n);
  }

  /** A body that is not an array saves nothing. */
  lemma {:induction false} NonArrayBody(body: JsonValue)
    requires !body.JArr?
    ensures NormalizeBody(body) == []
  {
  }

  /** A normalised row written back as a request row, as the grid sends it;
      `NaN` travels as `null`. */
  function Encode(row: HoursRow): JsonValue
  {
    JObj([("subject", JStr(row.subject)),
          ("grade", if row.grade.Some? then JNum(row.grade.value) else JNull),
          ("hours", if row.hours.Some? then JNum(row.hours.value) else JNull)])
  }

  /** The rows that survive a second pass: a non-empty subject, a grade that
      is a number other than 0, and hours. */
  predicate Stable(row: HoursRow)
  {
    row.subject != "" && row.grade.Some? && row.grade.value != 0 && row.hours.Some?
  }

  /** The three properties of an encoded row. */
  lemma {:induction false} EncodedFields(row: HoursRow)
    ensures Field(Encode(row), "subject") == Some(JStr(row.subject))
    ensures Field(Encode(row), "grade") == Some(if row.grade.Some? then JNum(row.grade.value) else JNull)
    ensures Field(Encode(row), "hours") == Some(if row.hours.Some? then JNum(row.hours.value) else JNull)
  {
    assert "subject"[0] != "grade"[0] && "subject"[0] != "hours"[0] && "grade"[0] != "hours"[0];
    var fs := Encode(row).fields;
    assert Get(fs, "grade") == Get(fs[1..], "grade");
    assert Get(fs, "hours") == Get(fs[1..], "hours") == Get(fs[2..], "hours");
  }

  /** An encoded row is kept exactly when it is stable, and then it
      normalises back to itself. */
  lemma {:induction false} EncodeRoundTrip(row: HoursRow)
    ensures Keep(Encode(row)) <==> Stable(row)
    ensures Stable(row) ==> NormalizeRow(Encode(row)) == row
  {
    EncodedFields(row);
    if Stable(row) {
      ParseIntOfNumber(row.grade.value);
      ParseIntOfNumber(row.hours.value);
      assert NormalizeRow(Encode(row)) == HoursRow(ToStr(JStr(row.subject)), ParseIntValue(JNum(row.grade.value)),
                                                     ParseIntValue(JNum(row.hours.value)));
    }
  }

  /** Normalising the encoding of normalised rows keeps exactly the stable
      ones, unchanged and in order. */
  lemma {:induction false} Renormalize(rows: seq<HoursRow>)
    ensures Normalize(Map(rows, Encode)) == Filter(rows, Stable)
  {
    if rows != [] {
      var init := rows[..|rows| - 1];
      var last := rows[|rows| - 1];
      assert rows == init + [last];
      MapSnoc(init, last, Encode);
      assert Map(rows, Encode)[..|rows| - 1] == Map(init, Encode);
      Renormalize(init);
      EncodeRoundTrip(last);
    }
  }

  /** Saving the saved rows again saves them again, as long as every saved
      row is stable. */
  lemma {:induction false} NormalizeIdempotent(body: JsonValue)
    requires forall i :: 0 <= i < |NormalizeBody(body)| ==> Stable(NormalizeBody(body)[i])
    ensures NormalizeBody(JArr(Map(NormalizeBody(body), Encode))) == NormalizeBody(body)
  {
    var rows := NormalizeBody(body);
    Renormalize(rows);
    FilterAgree(rows, Stable, (_: HoursRow) => true);
    FilterAll(rows);
  }

  /** Filtering with a test every element passes keeps everything. */
  lemma {:induction false} FilterAll(rows: seq<HoursRow>)
    ensures Filter(rows, (_: HoursRow) => true) == rows
  {
    if rows != [] {
      FilterAll(rows[..|rows| - 1]);
      assert rows[..|rows| - 1] + [rows[|rows| - 1]] == rows;
    }
  }
}
