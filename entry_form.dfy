/** The state both entry forms keep (`formData`), the single-field updates,
    and the multipart payload built from it on submit. */
module EntryForm {
  import opened Collections
  import PerformanceServer

  /** A `formData` value: text, a chosen `File` (by name), or null. */
  datatype Value = Text(s: string) | File(name: string) | NoFile

  /** JavaScript truthiness of a value. */
  predicate Truthy(v: Value)
  {
    match v
    case Text(s) => s != ""
    case File(_) => true
    case NoFile => false
  }

  /** The keys of `formData`, in the order `Object.keys` gives them. */
  const FieldNames: seq<string> := ["artist", "type", "date", "province", "city", "venue", "poster"]

  /** The names of the text inputs. */
  const TextFields: seq<string> := ["artist", "type", "date", "province", "city", "venue"]

  datatype FormData = FormData(
    artist: string, kind: string, date: string, province: string,
    city: string, venue: string, poster: Option<string>)

  /** `formData[key]`. */
  function Get(f: FormData, key: string): Value
  {
    if key == "artist" then Text(f.artist)
    else if key == "type" then Text(f.kind)
    else if key == "date" then Text(f.date)
    else if key == "province" then Text(f.province)
    else if key == "city" then Text(f.city)
    else if key == "venue" then Text(f.venue)
    else if key == "poster" then (if f.poster.Some? then File(f.poster.value) else NoFile)
    else NoFile
  }

  /** The initial state, and the one a successful submit returns to. */
  const Blank: FormData := FormData("", "", "", "", "", "", None)

  /** `{ ...prev, [name]: value }` for a text input: that field takes the
      value and every other field keeps its own. */
  function WithText(f: FormData, name: string, value: string): (g: FormData)
    requires name in TextFields
    ensures forall k :: k in FieldNames ==> Get(g, k) == (if k == name then Text(value) else Get(f, k))
  {
    if name == "artist" then f.(artist := value)
    else if name == "type" then f.(kind := value)
    else if name == "date" then f.(date := value)
    else if name == "province" then f.(province := value)
    else if name == "city" then f.(city := value)
    else f.(venue := value)
  }

  /** `{ ...prev, poster: file }`: only the poster changes. */
  function WithPoster(f: FormData, file: string): (g: FormData)
    ensures forall k :: k in FieldNames ==> Get(g, k) == (if k == "poster" then File(file) else Get(f, k))
  {
    f.(poster := Some(file))
  }

  /** `Object.keys(formData)` paired with the values. */
  function Entries(f: FormData): (es: seq<(string, Value)>)
    ensures |es| == |FieldNames|
    ensures forall i :: 0 <= i < |es| ==> es[i] == (FieldNames[i], Get(f, FieldNames[i]))
  {
    seq(|FieldNames|, i requires 0 <= i < |FieldNames| => (FieldNames[i], Get(f, FieldNames[i])))
  }

  predicate TruthyEntry(e: (string, Value))
  {
    Truthy(e.1)
  }

  /** The parts `handleSubmit` appends: the truthy entries, in key order. */
  function Payload(f: FormData): seq<(string, Value)>
  {
    Filter(Entries(f), TruthyEntry)
  }

  /** The forEach/append loop of `handleSubmit`. */
  method BuildPayload(f: FormData) returns (parts: seq<(string, Value)>)
    ensures parts == Payload(f)
  {
    var es := Entries(f);
    parts := [];
    var i := 0;
    while i < |es|
      invariant 0 <= i <= |es|
      invariant parts == Filter(es[..i], TruthyEntry)
    {
      FilterPrefixStep(es, i, TruthyEntry);
      if Truthy(es[i].1) {
        parts := parts + [es[i]];
      }
      i := i + 1;
    }
    assert es[..|es|] == es;
  }

  /** The payload carries exactly the keys whose value is truthy, each with
      its value: empty inputs and a missing poster are left out. */
  lemma PayloadExactlyTruthy(f: FormData, k: string, v: Value)
    ensures (k, v) in Payload(f) <==> k in FieldNames && v == Get(f, k) && Truthy(v)
  {
    var es := Entries(f);
    if k in FieldNames && v == Get(f, k) && Truthy(v) {
      var i :| 0 <= i < |FieldNames| && FieldNames[i] == k;
      assert es[i] == (k, v);
    }
    if (k, v) in Payload(f) {
      assert (k, v) in es;
    }
  }

  /** A blank form sends nothing. */
  lemma BlankPayload()
    ensures Payload(Blank) == []
  {
    var p := Payload(Blank);
    if p != [] {
      BlankNothingTruthy(p[0].0);
      PayloadExactlyTruthy(Blank, p[0].0, p[0].1);
    }
  }

  lemma BlankNothingTruthy(k: string)
    ensures !Truthy(Get(Blank, k))
  {
  }

  /** The text parts of a payload, as `req.body` on the server sees them. */
  function BodyOf(parts: seq<(string, Value)>): PerformanceServer.Body
  {
    if parts == [] then map[]
    else
      var last := parts[|parts| - 1];
      var rest := BodyOf(parts[..|parts| - 1]);
      if last.1.Text? then rest[last.0 := last.1.s] else rest
  }

  /** The keys of a list of entries. */
  function KeySet(es: seq<(string, Value)>): set<string>
  {
    set e | e in es :: e.0
  }

  /** Appending an entry: a truthy text part sets its key, anything else
      leaves the body as it was. */
  lemma BodyStep(init: seq<(string, Value)>, last: (string, Value))
    ensures var body0 := BodyOf(Filter(init, TruthyEntry));
            BodyOf(Filter(init + [last], TruthyEntry))
            == if Truthy(last.1) && last.1.Text? then body0[last.0 := last.1.s] else body0
  {
    FilterSnoc(init, last, TruthyEntry);
    BodySnoc(Filter(init, TruthyEntry), last);
  }

  lemma BodySnoc(parts: seq<(string, Value)>, x: (string, Value))
    ensures BodyOf(parts + [x]) == if x.1.Text? then BodyOf(parts)[x.0 := x.1.s] else BodyOf(parts)
  {
    var next := parts + [x];
    assert next[..|next| - 1] == parts && next[|next| - 1] == x;
  }

  /** Only keys of the entries reach the body. */
  lemma {:induction false} BodyKeys(es: seq<(string, Value)>)
    ensures BodyOf(Filter(es, TruthyEntry)).Keys <= KeySet(es)
    decreases |es|
  {
    if es != [] {
      var init := es[..|es| - 1];
      BodyKeys(init);
      assert es == init + [es[|es| - 1]];
      BodyStep(init, es[|es| - 1]);
      assert KeySet(init) <= KeySet(es);
      assert es[|es| - 1].0 in KeySet(es);
    }
  }

  /** With distinct keys, the body has the key of entry j exactly when that
      entry is non-empty text, and then holds that text. */
  lemma {:induction false} BodyOfEntry(es: seq<(string, Value)>, j: nat)
    requires j < |es|
    requires forall b :: 0 <= b < |es| && b != j ==> es[b].0 != es[j].0
    ensures var body := BodyOf(Filter(es, TruthyEntry));
            && (es[j].0 in body <==> es[j].1.Text? && es[j].1.s != "")
            && (es[j].0 in body ==> body[es[j].0] == es[j].1.s)
    decreases |es|
  {
    var n := |es|;
    var init := es[..n - 1];
    assert es == init + [es[n - 1]];
    BodyStep(init, es[n - 1]);
    if j < n - 1 {
      assert forall b :: 0 <= b < |init| ==> init[b] == es[b];
      assert es[n - 1].0 != es[j].0;
      BodyOfEntry(init, j);
    } else {
      BodyKeys(init);
      KeyAbsent(init, es[j].0);
    }
  }

  lemma KeyAbsent(es: seq<(string, Value)>, k: string)
    requires forall b :: 0 <= b < |es| ==> es[b].0 != k
    ensures k !in KeySet(es)
  {
    assert forall e :: e in es ==> e.0 != k;
  }

  /** What the server reads from a submitted form: each text field the user
      left empty arrives as NULL, every other one as its text. */
  lemma ServerSeesForm(f: FormData, j: nat)
    requires j < |TextFields|
    ensures var k := TextFields[j];
            PerformanceServer.OrNull(BodyOf(Payload(f)), k)
            == (if Get(f, k).s != "" then PerformanceServer.Text(Get(f, k).s) else PerformanceServer.Null)
  {
    var es := Entries(f);
    assert FieldNames[j] == TextFields[j];
    assert forall b :: 0 <= b < |es| && b != j ==> es[b].0 != es[j].0;
    BodyOfEntry(es, j);
  }

  /** How the POST came back to `axios`. */
  datatype Outcome =
    | Accepted   // 2xx with `success: true`
    | Declined   // 2xx with `success: false`
    | Failed     // the request threw: network error or a non-2xx status
}
