/** The Express server over the MySQL `performances` table: the upload
    filter and file name, POST (insert), PUT (update) and DELETE. The table is
    a map from id to row; whether MySQL carries out a statement (connection
    up, values accepted) is a parameter of each handler. */
module PerformanceServer {
  import opened Collections
  import opened Http

  /** A column value: SQL NULL or text. */
  datatype Field = Null | Text(s: string)

  /** The text fields of a multipart request body. */
  type Body = map<string, string>

  /** `req.body[key] || null`: a missing or empty field becomes NULL. */
  function OrNull(body: Body, key: string): (f: Field)
    ensures f.Text? <==> key in body && body[key] != ""
    ensures f.Text? ==> f.s == body[key] && f.s != ""
  {
    if key in body && body[key] != "" then Text(body[key]) else Null
  }

  /** One row; `kind` is the `type` column. */
  datatype Record = Record(
    artist: Field, kind: Field, province: Field, city: Field,
    venue: Field, notes: Field, date: Field, poster: Field)

  /** The column order of the INSERT statement. */
  const Columns: seq<string> := ["artist", "type", "province", "city", "venue", "notes", "date", "poster"]

  /** The value of a named column; a name that is not a column reads NULL. */
  function Column(r: Record, name: string): Field
  {
    if name == "artist" then r.artist
    else if name == "type" then r.kind
    else if name == "province" then r.province
    else if name == "city" then r.city
    else if name == "venue" then r.venue
    else if name == "notes" then r.notes
    else if name == "date" then r.date
    else if name == "poster" then r.poster
    else Null
  }

  // ---------------------------------------------------------------- uploads

  /** A file part as multer sees it: the random suffix it draws
      (`Date.now() + '-' + random`) and the client's file name. */
  datatype Upload = Upload(uniqueSuffix: string, originalName: string)

  /** The endings `/\.(jpg|jpeg|png|gif)$/` accepts. */
  const ImageSuffixes: seq<string> := [".jpg", ".jpeg", ".png", ".gif"]

  predicate EndsWith(s: string, suffix: string)
  {
    |suffix| <= |s| && s[|s| - |suffix|..] == suffix
  }

  /** The file filter: the name ends in one of the four suffixes, in lower case. */
  predicate AcceptsUpload(name: string)
  {
    EndsWith(name, ".jpg") || EndsWith(name, ".jpeg") || EndsWith(name, ".png") || EndsWith(name, ".gif")
  }

  /** The filter is exactly "ends with an image suffix". */
  lemma AcceptsUploadIff(name: string)
    ensures AcceptsUpload(name) <==> exists x :: x in ImageSuffixes && EndsWith(name, x)
  {
    if AcceptsUpload(name) {
      if EndsWith(name, ".jpg") { assert ImageSuffixes[0] == ".jpg"; }
      else if EndsWith(name, ".jpeg") { assert ImageSuffixes[1] == ".jpeg"; }
      else if EndsWith(name, ".png") { assert ImageSuffixes[2] == ".png"; }
      else { assert ImageSuffixes[3] == ".gif"; }
    }
  }

  /** The match is case-sensitive and anchored at the end. */
  lemma AcceptsUploadExamples()
    ensures AcceptsUpload("poster.jpeg") && AcceptsUpload(".png")
    ensures !AcceptsUpload("poster.JPG") && !AcceptsUpload("poster.jpg.exe") && !AcceptsUpload("jpg")
  {
    assert EndsWith("poster.jpeg", ".jpeg");
    assert EndsWith(".png", ".png");
    assert !EndsWith("poster.JPG", ".jpg") by { assert "poster.JPG"[7] != ".jpg"[1]; }
    assert !EndsWith("poster.jpg.exe", ".jpg") by { assert "poster.jpg.exe"[11] != ".jpg"[1]; }
    assert !EndsWith("poster.jpg.exe", ".jpeg") by { assert "poster.jpg.exe"[11] != ".jpeg"[2]; }
    assert !EndsWith("poster.jpg.exe", ".png") by { assert "poster.jpg.exe"[11] != ".png"[1]; }
    assert !EndsWith("poster.jpg.exe", ".gif") by { assert "poster.jpg.exe"[11] != ".gif"[1]; }
  }

  /** Index of the last '.' of s, if any. */
  function LastDot(s: string): (i: Option<nat>)
    ensures i.Some? ==> i.value < |s| && s[i.value] == '.' && forall j :: i.value < j < |s| ==> s[j] != '.'
    ensures i.None? ==> forall j :: 0 <= j < |s| ==> s[j] != '.'
  {
    if s == [] then None
    else if s[|s| - 1] == '.' then Some(|s| - 1)
    else LastDot(s[..|s| - 1])
  }

  /** `path.extname` of a name without separators: from the last dot on,
      except that a name whose only dot is its first character, and the name
      "..", have no extension. */
  function ExtName(name: string): (ext: string)
    ensures ext == "" || (ext[0] == '.' && EndsWith(name, ext))
  {
    match LastDot(name)
    case None => ""
    case Some(i) => if i == 0 || name == ".." then "" else name[i..]
  }

  /** `uniqueSuffix + path.extname(file.originalname)`. */
  function StoredName(u: Upload): (name: string)
    ensures |name| >= |u.uniqueSuffix| && name[..|u.uniqueSuffix|] == u.uniqueSuffix
  {
    u.uniqueSuffix + ExtName(u.originalName)
  }

  /** A name ending in a dot and some letters, with something before the
      dot, keeps that ending as its extension ... */
  lemma ExtNameOfEnding(base: string, ext: string)
    requires base != "" && |ext| >= 2 && ext[0] == '.'
    requires forall j :: 0 < j < |ext| ==> ext[j] != '.'
    ensures ExtName(base + ext) == ext
  {
    var name := base + ext;
    assert name[|base|] == '.';
    assert forall j :: |base| < j < |name| ==> name[j] == ext[j - |base|];
    assert name[|base|..] == ext;
  }

  /** ... so an accepted name with something before the dot is stored under
      the suffix and its image ending ... */
  lemma StoredNameKeepsExtension(u: Upload, base: string, x: string)
    requires x in ImageSuffixes && base != ""
    requires u.originalName == base + x
    ensures StoredName(u) == u.uniqueSuffix + x
  {
    assert x == ".jpg" || x == ".jpeg" || x == ".png" || x == ".gif";
    ExtNameOfEnding(base, x);
  }

  /** ... but a file called ".png" passes the filter and is stored under the
      bare suffix, with no extension at all. */
  lemma DotNameLosesExtension(u: Upload)
    requires u.originalName == ".png"
    ensures AcceptsUpload(u.originalName)
    ensures StoredName(u) == u.uniqueSuffix
  {
    assert EndsWith(".png", ".png");
    var name := u.originalName;
    assert name[0] == '.' && name[1] != '.' && name[2] != '.' && name[3] != '.';
    assert LastDot(name) == Some(0);
  }

  /** `/api/uploads/${req.file.filename}`. */
  function PosterPath(filename: string): (p: string)
    ensures EndsWith(p, filename) && |p| == |"/api/uploads/"| + |filename|
  {
    "/api/uploads/" + filename
  }

  // ------------------------------------------------------------------ POST

  /** The `data` object of POST: every text field through `|| null`, the
      poster path when a file came with the request. */
  function InsertData(body: Body, filename: Option<string>): (r: Record)
    ensures forall c :: c in Columns[..7] ==> Column(r, c) == OrNull(body, c)
    ensures r.poster == (if filename.Some? then Text(PosterPath(filename.value)) else Null)
  {
    Record(OrNull(body, "artist"), OrNull(body, "type"), OrNull(body, "province"),
           OrNull(body, "city"), OrNull(body, "venue"), OrNull(body, "notes"),
           OrNull(body, "date"),
           if filename.Some? then Text(PosterPath(filename.value)) else Null)
  }

  /** `!data.artist || !data.type || !data.province` fails. */
  predicate HasRequired(r: Record)
  {
    r.artist.Text? && r.kind.Text? && r.province.Text?
  }

  /** The check passes exactly when the body has the three fields non-empty. */
  lemma RequiredFields(body: Body, filename: Option<string>)
    ensures HasRequired(InsertData(body, filename)) <==>
            && "artist" in body && body["artist"] != ""
            && "type" in body && body["type"] != ""
            && "province" in body && body["province"] != ""
  {
    assert Columns[..7][0] == "artist" && Columns[..7][1] == "type" && Columns[..7][2] == "province";
  }

  /** The eight values bound to the INSERT, in column order. */
  function InsertValues(r: Record): (vals: seq<Field>)
    ensures |vals| == |Columns| == 8
    ensures forall i :: 0 <= i < 8 ==> vals[i] == Column(r, Columns[i])
  {
    [r.artist, r.kind, r.province, r.city, r.venue, r.notes, r.date, r.poster]
  }

  /** The row MySQL stores from the eight bound values. */
  function RowOf(vals: seq<Field>): Record
    requires |vals| == 8
  {
    Record(vals[0], vals[1], vals[2], vals[3], vals[4], vals[5], vals[6], vals[7])
  }

  /** The INSERT stores exactly the record built from the request. */
  lemma InsertRoundTrip(r: Record)
    ensures RowOf(InsertValues(r)) == r
  {
  }

  // ------------------------------------------------------------------- PUT

  /** The columns every PUT sets, in key order; `poster` follows when a file came. */
  const UpdateColumns: seq<string> := ["artist", "type", "province", "city", "venue", "notes", "date"]

  /** The `data` object of PUT: the seven text fields through `|| null`, and
      the poster key only when a file was uploaded. */
  function UpdateData(body: Body, filename: Option<string>): (d: Dict<Field>)
    ensures d.keys == UpdateColumns + (if filename.Some? then ["poster"] else [])
    ensures forall c :: c in UpdateColumns ==> c in d.values && d.values[c] == OrNull(body, c)
    ensures filename.Some? ==> "poster" in d.values && d.values["poster"] == Text(PosterPath(filename.value))
    ensures forall k :: k in d.keys ==> k in d.values
  {
    var text := map c | c in UpdateColumns :: OrNull(body, c);
    match filename
    case None => Dict(UpdateColumns, text)
    case Some(f) => Dict(UpdateColumns + ["poster"], text["poster" := Text(PosterPath(f))])
  }

  /** The check of PUT reads the same three fields as POST. */
  predicate UpdateHasRequired(d: Dict<Field>)
    requires forall c :: c in UpdateColumns ==> c in d.values
  {
    d.values["artist"].Text? && d.values["type"].Text? && d.values["province"].Text?
  }

  /** `fields.map(field => `${field} = ?`).join(', ')`. */
  function SetClause(keys: seq<string>): string
    decreases |keys|
  {
    if keys == [] then ""
    else if |keys| == 1 then keys[0] + " = ?"
    else keys[0] + " = ?, " + SetClause(keys[1..])
  }

  /** The statement text, with its surrounding line breaks and indentation
      reduced to single spaces. */
  function UpdateSql(keys: seq<string>): string
  {
    "UPDATE performances SET " + SetClause(keys) + " WHERE id = ?"
  }

  /** A bound parameter: a column value or the id from the path. */
  datatype Param = Value(f: Field) | Id(id: int)

  function ValuesOf(keys: seq<string>, values: map<string, Field>): (ps: seq<Param>)
    requires forall k :: k in keys ==> k in values
    ensures |ps| == |keys|
    ensures forall i :: 0 <= i < |keys| ==> ps[i] == Value(values[keys[i]])
  {
    if keys == [] then [] else [Value(values[keys[0]])] + ValuesOf(keys[1..], values)
  }

  /** `[...values, req.params.id]`. */
  function UpdateParams(d: Dict<Field>, id: int): (ps: seq<Param>)
    requires forall k :: k in d.keys ==> k in d.values
    ensures |ps| == |d.keys| + 1 && ps[|d.keys|] == Id(id)
  {
    ValuesOf(d.keys, d.values) + [Id(id)]
  }

  function Count(s: string, c: char): nat
  {
    if s == [] then 0 else (if s[0] == c then 1 else 0) + Count(s[1..], c)
  }

  lemma {:induction false} CountAppend(a: string, b: string, c: char)
    ensures Count(a + b, c) == Count(a, c) + Count(b, c)
  {
    if a == [] {
      assert a + b == b;
    } else {
      assert (a + b)[1..] == a[1..] + b;
      CountAppend(a[1..], b, c);
    }
  }

  lemma {:induction false} CountAbsent(s: string, c: char)
    requires c !in s
    ensures Count(s, c) == 0
  {
    if s != [] {
      assert s[1..] == s[1..] && c !in s[1..] by {
        forall j | 0 <= j < |s[1..]| ensures s[1..][j] != c { assert s[1..][j] == s[j + 1]; }
      }
      CountAbsent(s[1..], c);
    }
  }

  /** A name without '?' contributes exactly one placeholder to the clause. */
  lemma {:induction false} SetClausePlaceholders(keys: seq<string>)
    requires forall k :: k in keys ==> '?' !in k
    ensures Count(SetClause(keys), '?') == |keys|
    decreases |keys|
  {
    if |keys| >= 1 {
      CountAbsent(keys[0], '?');
    }
    if |keys| == 1 {
      CountAppend(keys[0], " = ?", '?');
    } else if |keys| > 1 {
      SetClausePlaceholders(keys[1..]);
      CountAppend(keys[0], " = ?, ", '?');
      CountAppend(keys[0] + " = ?, ", SetClause(keys[1..]), '?');
    }
  }

  /** No key of a PUT contains a '?'. */
  lemma ColumnNamesPlain(keys: seq<string>)
    requires keys == UpdateColumns || keys == UpdateColumns + ["poster"]
    ensures forall k :: k in keys ==> '?' !in k
  {
    forall k | k in keys
      ensures '?' !in k
    {
      assert k == "artist" || k == "type" || k == "province" || k == "city"
          || k == "venue" || k == "notes" || k == "date" || k == "poster";
    }
  }

  lemma HeadPlaceholders()
    ensures Count("UPDATE performances SET ", '?') == 0
  {
    CountAbsent("UPDATE performances SET ", '?');
  }

  lemma CountThree(a: string, b: string, d: string, c: char)
    ensures Count(a + b + d, c) == Count(a, c) + Count(b, c) + Count(d, c)
  {
    CountAppend(a, b, c);
    CountAppend(a + b, d, c);
  }

  /** A text free of c followed by one c holds exactly one c. */
  lemma CountOneAtEnd(s: string, c: char)
    requires c !in s
    ensures Count(s + [c], c) == 1
  {
    CountAbsent(s, c);
    CountAppend(s, [c], c);
  }

  lemma TailPlaceholders()
    ensures Count(" WHERE id = ?", '?') == 1
  {
    CountOneAtEnd(" WHERE id = ", '?');
    assert " WHERE id = " + ['?'] == " WHERE id = ?";
  }

  /** One placeholder per key, and the one of the WHERE clause. */
  lemma SqlPlaceholders(keys: seq<string>)
    requires forall k :: k in keys ==> '?' !in k
    ensures Count(UpdateSql(keys), '?') == |keys| + 1
  {
    SetClausePlaceholders(keys);
    HeadPlaceholders();
    TailPlaceholders();
    CountThree("UPDATE performances SET ", SetClause(keys), " WHERE id = ?", '?');
  }

  /** The statement has as many placeholders as parameters are bound. */
  lemma UpdatePlaceholders(body: Body, filename: Option<string>, id: int)
    ensures var d := UpdateData(body, filename);
            Count(UpdateSql(d.keys), '?') == |UpdateParams(d, id)|
  {
    var d := UpdateData(body, filename);
    ColumnNamesPlain(d.keys);
    SqlPlaceholders(d.keys);
  }

  /** `SET column = value` on one row; a name that is no column changes nothing. */
  function Assign(r: Record, name: string, v: Field): (r': Record)
    ensures forall c :: c in Columns ==> Column(r', c) == (if c == name then v else Column(r, c))
  {
    if name == "artist" then r.(artist := v)
    else if name == "type" then r.(kind := v)
    else if name == "province" then r.(province := v)
    else if name == "city" then r.(city := v)
    else if name == "venue" then r.(venue := v)
    else if name == "notes" then r.(notes := v)
    else if name == "date" then r.(date := v)
    else if name == "poster" then r.(poster := v)
    else r
  }

  /** The SET clause applied to a row, assignment by assignment. */
  function ApplySet(r: Record, keys: seq<string>, values: map<string, Field>): Record
    requires forall k :: k in keys ==> k in values
    decreases |keys|
  {
    if keys == [] then r else ApplySet(Assign(r, keys[0], values[keys[0]]), keys[1..], values)
  }

  /** The row after `UPDATE ... SET` with the keys and values of d. */
  function Updated(r: Record, d: Dict<Field>): Record
    requires forall k :: k in d.keys ==> k in d.values
  {
    ApplySet(r, d.keys, d.values)
  }

  /** After the UPDATE, a column named in the clause holds its new value and
      every other column is as it was. */
  lemma {:induction false} ApplySetColumns(r: Record, keys: seq<string>, values: map<string, Field>, c: string)
    requires forall k :: k in keys ==> k in values
    requires c in Columns
    ensures Column(ApplySet(r, keys, values), c) == (if c in keys then values[c] else Column(r, c))
    decreases |keys|
  {
    if keys != [] {
      ApplySetColumns(Assign(r, keys[0], values[keys[0]]), keys[1..], values, c);
      assert c in keys <==> c == keys[0] || c in keys[1..];
    }
  }

  /** An update without a file leaves the stored poster as it was. */
  lemma UpdateKeepsPoster(r: Record, body: Body)
    ensures var d := UpdateData(body, None);
            ApplySet(r, d.keys, d.values).poster == r.poster
  {
    var d := UpdateData(body, None);
    ApplySetColumns(r, d.keys, d.values, "poster");
  }

  // ----------------------------------------------------------------- table

  /** The stored name of an accepted upload. */
  function Filename(upload: Option<Upload>): (f: Option<string>)
    ensures f.Some? <==> upload.Some? && AcceptsUpload(upload.value.originalName)
  {
    if upload.Some? && AcceptsUpload(upload.value.originalName) then Some(StoredName(upload.value)) else None
  }

  class PerformanceTable {
    var rows: map<int, Record>
    /** The next AUTO_INCREMENT id. */
    var nextId: int

    ghost predicate Valid()
      reads this
    {
      nextId >= 1 && forall id :: id in rows ==> 1 <= id < nextId
    }

    constructor ()
      ensures Valid() && rows == map[] && nextId == 1
    {
      rows := map[];
      nextId := 1;
    }

    /** The file part: rejected by the filter, multer hands an error to
        Express, which answers 500; accepted, it is stored under its name. */
    static method ReceiveFile(upload: Option<Upload>) returns (rejected: bool, filename: Option<string>)
      ensures rejected <==> upload.Some? && !AcceptsUpload(upload.value.originalName)
      ensures filename.Some? <==> upload.Some? && !rejected
      ensures filename == Filename(upload)
    {
      rejected := false;
      filename := None;
      if upload.Some? {
        if AcceptsUpload(upload.value.originalName) {
          filename := Some(StoredName(upload.value));
        } else {
          rejected := true;
        }
      }
    }

    /** `POST /api/performances`. */
    method Post(body: Body, upload: Option<Upload>, executes: bool) returns (status: Status, id: Option<int>)
      requires Valid()
      modifies this
      ensures Valid()
      ensures upload.Some? && !AcceptsUpload(upload.value.originalName) ==>
                status == ServerError && rows == old(rows) && nextId == old(nextId)
      ensures var data := InsertData(body, Filename(upload));
              upload.None? || AcceptsUpload(upload.value.originalName) ==>
              if !HasRequired(data) then
                status == BadRequest && id.None? && rows == old(rows) && nextId == old(nextId)
              else if !executes then
                status == ServerError && id.None? && rows == old(rows) && nextId == old(nextId)
              else
                status == Ok && id == Some(old(nextId)) && nextId == old(nextId) + 1
                && old(nextId) !in old(rows) && rows == old(rows)[old(nextId) := RowOf(InsertValues(data))]
    {
      var rejected, filename := ReceiveFile(upload);
      if rejected {
        return ServerError, None;
      }
      var data := InsertData(body, filename);
      if !HasRequired(data) {
        return BadRequest, None;
      }
      if !executes {
        return ServerError, None;
      }
      id := Some(nextId);
      rows := rows[nextId := RowOf(InsertValues(data))];
      nextId := nextId + 1;
      status := Ok;
    }

    /** `PUT /api/performances/:id`. With a missing required field no
        statement runs; otherwise a row that does not exist gives 404. */
    method Put(id: int, body: Body, upload: Option<Upload>, executes: bool) returns (status: Status)
      requires Valid()
      modifies this
      ensures Valid() && nextId == old(nextId)
      ensures upload.Some? && !AcceptsUpload(upload.value.originalName) ==>
                status == ServerError && rows == old(rows)
      ensures var d := UpdateData(body, Filename(upload));
              upload.None? || AcceptsUpload(upload.value.originalName) ==>
              if !UpdateHasRequired(d) then status == BadRequest && rows == old(rows)
              else if !executes then status == ServerError && rows == old(rows)
              else if id !in old(rows) then status == NotFound && rows == old(rows)
              else status == Ok && rows == old(rows)[id := Updated(old(rows)[id], d)]
    {
      var rejected, filename := ReceiveFile(upload);
      if rejected {
        return ServerError;
      }
      var d := UpdateData(body, filename);
      if !UpdateHasRequired(d) {
        return BadRequest;
      }
      if !executes {
        return ServerError;
      }
      if id !in rows {
        return NotFound;
      }
      SetRow(id, Updated(rows[id], d));
      status := Ok;
    }

    /** Replaces an existing row. */
    method SetRow(id: int, row: Record)
      requires Valid() && id in rows
      modifies this
      ensures Valid() && nextId == old(nextId)
      ensures rows == old(rows)[id := row]
    {
      rows := rows[id := row];
    }

    /** `DELETE /api/performances/:id`: 404 when no row goes. */
    method Delete(id: int, executes: bool) returns (status: Status)
      requires Valid()
      modifies this
      ensures Valid() && nextId == old(nextId)
      ensures !executes ==> status == ServerError && rows == old(rows)
      ensures executes && id !in old(rows) ==> status == NotFound && rows == old(rows)
      ensures executes && id in old(rows) ==> status == Ok && rows == old(rows) - {id}
    {
      if !executes {
        return ServerError;
      }
      if id !in rows {
        return NotFound;
      }
      rows := rows - {id};
      status := Ok;
    }
  }
}
