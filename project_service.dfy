/**
 * The client's project service: the `Authorization` header it sends, and the
 * multipart form entries it builds for creating and for updating a project.
 * A form is the sequence of its `append` calls, in order.
 */
module ProjectService {
  import opened Wrappers
  import opened JsText
  import Bearer

  /** `Bearer ${token}`; the stored token is None when the browser holds none,
      which the template literal writes as `null`. */
  function AuthorizationHeader(token: Option<string>): (header: string)
    ensures token.Some? ==> header == "Bearer " + token.value
    ensures token.None? ==> header == "Bearer null"
  {
    "Bearer " + match token case Some(t) => t case None => "null"
  }

  /** The backend reads back the token the client put in the header. */
  lemma HeaderCarriesToken(token: string)
    requires ' ' !in token
    ensures Bearer.TokenOf(Some(AuthorizationHeader(Some(token)))) == Some(token)
  {
    Bearer.TokenOfHeader("Bearer", token, "");
    assert "Bearer" + " " + token == "Bearer " + token;
  }

  /** Without a stored token the backend still receives a token: the four
      letters `null`, which it then has to reject as a token. */
  lemma MissingTokenSentAsNull()
    ensures Bearer.TokenOf(Some(AuthorizationHeader(None))) == Some("null")
    ensures IsTruthy(Bearer.TokenOf(Some(AuthorizationHeader(None))))
  {
    Bearer.TokenOfHeader("Bearer", "null", "");
    assert "Bearer" + " " + "null" == "Bearer null";
  }

  /** A browser `File`, known by its name. */
  datatype FileRef = FileRef(name: string)

  /** What `FormData.append` stores: a string, or a file. */
  datatype FormValue = Text(text: string) | Blob(file: FileRef)

  datatype FormEntry = FormEntry(key: string, value: FormValue)

  /** `CreateProjectRequest`; `coverPhoto` is None for `null`. */
  datatype CreateProjectRequest = CreateProjectRequest(
    title: string,
    description: string,
    coverPhoto: Option<FileRef>,
    screenshots: seq<FileRef>,
    githubLink: string,
    liveLink: string,
    isPublic: bool)

  /** `formData.getAll(key)`: the values appended under `key`, in order. */
  function GetAll(form: seq<FormEntry>, key: string): (values: seq<FormValue>)
    ensures |values| <= |form|
  {
    if form == [] then []
    else GetAll(form[..|form| - 1], key) + (if form[|form| - 1].key == key then [form[|form| - 1].value] else [])
  }

  lemma {:induction false} GetAllAppend(a: seq<FormEntry>, b: seq<FormEntry>, key: string)
    ensures GetAll(a + b, key) == GetAll(a, key) + GetAll(b, key)
    decreases |b|
  {
    if b == [] {
      assert a + b == a;
    } else {
      assert (a + b)[..|a + b| - 1] == a + b[..|b| - 1];
      GetAllAppend(a, b[..|b| - 1], key);
    }
  }

  /** One `screenshots` entry per file, in array order. */
  function ScreenshotEntries(files: seq<FileRef>): (entries: seq<FormEntry>)
    ensures |entries| == |files|
    ensures forall i :: 0 <= i < |files| ==> entries[i] == FormEntry("screenshots", Blob(files[i]))
  {
    seq(|files|, i requires 0 <= i < |files| => FormEntry("screenshots", Blob(files[i])))
  }

  /** The files of a sequence, as form values. */
  function Blobs(files: seq<FileRef>): (values: seq<FormValue>)
    ensures |values| == |files|
    ensures forall i :: 0 <= i < |files| ==> values[i] == Blob(files[i])
  {
    seq(|files|, i requires 0 <= i < |files| => Blob(files[i]))
  }

  lemma {:induction false} ScreenshotValues(files: seq<FileRef>, key: string)
    ensures GetAll(ScreenshotEntries(files), key) == if key == "screenshots" then Blobs(files) else []
    decreases |files|
  {
    if files != [] {
      var init := files[..|files| - 1];
      assert ScreenshotEntries(files)[..|files| - 1] == ScreenshotEntries(init);
      ScreenshotValues(init, key);
    }
  }

  /** The five text entries `createProject` always appends first. */
  function FieldEntries(data: CreateProjectRequest): seq<FormEntry> {
    [ FormEntry("title", Text(data.title)),
      FormEntry("description", Text(data.description)),
      FormEntry("githubLink", Text(data.githubLink)),
      FormEntry("liveLink", Text(data.liveLink)),
      FormEntry("isPublic", Text(if data.isPublic then "true" else "false")) ]
  }

  /** The entries `createProject` appends. */
  function CreateEntries(data: CreateProjectRequest): seq<FormEntry> {
    FieldEntries(data)
    + (if data.coverPhoto.Some? then [FormEntry("coverPhoto", Blob(data.coverPhoto.value))] else [])
    + ScreenshotEntries(data.screenshots)
  }

  /** The form of `createProject`, built by successive appends. */
  method CreateProjectForm(data: CreateProjectRequest) returns (form: seq<FormEntry>)
    ensures form == CreateEntries(data)
  {
    form := [];
    form := form + [FormEntry("title", Text(data.title))];
    form := form + [FormEntry("description", Text(data.description))];
    form := form + [FormEntry("githubLink", Text(data.githubLink))];
    form := form + [FormEntry("liveLink", Text(data.liveLink))];
    form := form + [FormEntry("isPublic", Text(if data.isPublic then "true" else "false"))];
    if data.coverPhoto.Some? {
      form := form + [FormEntry("coverPhoto", Blob(data.coverPhoto.value))];
    }
    ghost var fixed := form;
    var i := 0;
    while i < |data.screenshots|
      invariant 0 <= i <= |data.screenshots|
      invariant form == fixed + ScreenshotEntries(data.screenshots[..i])
    {
      form := form + [FormEntry("screenshots", Blob(data.screenshots[i]))];
      i := i + 1;
    }
    assert data.screenshots[..i] == data.screenshots;
  }

  /** The layout of the create form: the five fields first and in order, then
      the cover photo when there is one, then one entry per screenshot. */
  lemma CreateFormLayout(data: CreateProjectRequest)
    ensures var form := CreateEntries(data);
      var covers := if data.coverPhoto.Some? then 1 else 0;
      && |form| == 5 + covers + |data.screenshots|
      && form[..5] == FieldEntries(data)
      && (data.coverPhoto.Some? ==> form[5] == FormEntry("coverPhoto", Blob(data.coverPhoto.value)))
      && forall i :: 0 <= i < |data.screenshots| ==>
           form[5 + covers + i] == FormEntry("screenshots", Blob(data.screenshots[i]))
  {
  }

  /** The create form read back by key: the fields, then the cover photo,
      then the screenshots. */
  lemma CreateFormByKey(data: CreateProjectRequest, key: string)
    ensures GetAll(CreateEntries(data), key)
         == GetAll(FieldEntries(data), key)
            + (if key == "coverPhoto" && data.coverPhoto.Some? then [Blob(data.coverPhoto.value)] else [])
            + (if key == "screenshots" then Blobs(data.screenshots) else [])
  {
    var cover := if data.coverPhoto.Some? then [FormEntry("coverPhoto", Blob(data.coverPhoto.value))] else [];
    GetAllAppend(FieldEntries(data) + cover, ScreenshotEntries(data.screenshots), key);
    GetAllAppend(FieldEntries(data), cover, key);
    ScreenshotValues(data.screenshots, key);
    if cover != [] {
      assert cover[..0] == [];
    }
  }

  lemma GetAllOne(e: FormEntry, key: string)
    ensures GetAll([e], key) == if e.key == key then [e.value] else []
  {
    assert [e][..0] == [];
  }

  /** Each of the five fields is read back as the one value sent under it. */
  lemma FieldValues(data: CreateProjectRequest, key: string)
    requires key in {"title", "description", "githubLink", "liveLink", "isPublic"}
    ensures GetAll(FieldEntries(data), key) == [FieldEntries(data)[Position(key)].value]
  {
    var f := FieldEntries(data);
    var front := [f[0]] + [f[1]] + [f[2]] + [f[3]];
    assert f == front + [f[4]];
    GetAllAppend(front, [f[4]], key);
    FrontValues(f[0], f[1], f[2], f[3], key);
    GetAllOne(f[4], key);
  }

  lemma FrontValues(e0: FormEntry, e1: FormEntry, e2: FormEntry, e3: FormEntry, key: string)
    ensures GetAll([e0] + [e1] + [e2] + [e3], key)
         == GetAll([e0], key) + GetAll([e1], key) + GetAll([e2], key) + GetAll([e3], key)
  {
    GetAllAppend([e0] + [e1] + [e2], [e3], key);
    GetAllAppend([e0] + [e1], [e2], key);
    GetAllAppend([e0], [e1], key);
  }

  /** The position of each text field in the create form. */
  function Position(key: string): (i: nat)
    requires key in {"title", "description", "githubLink", "liveLink", "isPublic"}
    ensures i < 5
  {
    if key == "title" then 0
    else if key == "description" then 1
    else if key == "githubLink" then 2
    else if key == "liveLink" then 3
    else 4
  }

  /** Reading the create form back by key gives the request again. */
  lemma CreateFormReadBack(data: CreateProjectRequest)
    ensures GetAll(CreateEntries(data), "title") == [Text(data.title)]
    ensures GetAll(CreateEntries(data), "description") == [Text(data.description)]
    ensures GetAll(CreateEntries(data), "githubLink") == [Text(data.githubLink)]
    ensures GetAll(CreateEntries(data), "liveLink") == [Text(data.liveLink)]
    ensures GetAll(CreateEntries(data), "isPublic") == [Text(if data.isPublic then "true" else "false")]
    ensures GetAll(CreateEntries(data), "coverPhoto") ==
      if data.coverPhoto.Some? then [Blob(data.coverPhoto.value)] else []
    ensures GetAll(CreateEntries(data), "screenshots") == Blobs(data.screenshots)
  {
    CreateFormByKey(data, "title");
    FieldValues(data, "title");
    CreateFormByKey(data, "description");
    FieldValues(data, "description");
    CreateFormByKey(data, "githubLink");
    FieldValues(data, "githubLink");
    CreateFormByKey(data, "liveLink");
    FieldValues(data, "liveLink");
    CreateFormByKey(data, "isPublic");
    FieldValues(data, "isPublic");
    CreateFormByKey(data, "coverPhoto");
    CreateFormByKey(data, "screenshots");
    FieldsNotUnder(data, "coverPhoto");
    FieldsNotUnder(data, "screenshots");
  }

  lemma FieldsNotUnder(data: CreateProjectRequest, key: string)
    requires key !in {"title", "description", "githubLink", "liveLink", "isPublic"}
    ensures GetAll(FieldEntries(data), key) == []
  {
    NoEntryUnderKey(FieldEntries(data), key);
  }

  /** A JavaScript value as it can sit under a key of `Partial<CreateProjectRequest>`. */
  datatype JsValue = Undefined | Null | Str(s: string) | Bool(b: bool) | File(f: FileRef) | Files(fs: seq<FileRef>)

  /** The value's truth: `undefined`, `null`, `""` and `false` are false;
      files and arrays, even empty ones, are true. */
  predicate Truthy(v: JsValue) {
    match v
    case Undefined => false
    case Null => false
    case Str(s) => s != ""
    case Bool(b) => b
    case File(_) => true
    case Files(_) => true
  }

  /** What `FormData.append` stores for a value: files as files, anything else
      converted to a string (an array joins its elements' strings with ','). */
  function ToFormValue(v: JsValue): FormValue {
    match v
    case File(f) => Blob(f)
    case Null => Text("null")
    case Undefined => Text("undefined")
    case Str(s) => Text(s)
    case Bool(b) => Text(if b then "true" else "false")
    case Files(fs) => Text(Join(seq(|fs|, _ => "[object File]"), ','))
  }

  /** The entries the loop body of `updateProject` appends for one key. */
  function KeyEntries(key: string, v: JsValue): (entries: seq<FormEntry>)
    ensures forall i :: 0 <= i < |entries| ==> entries[i].key == key
    ensures v == Undefined ==> entries == []
  {
    if key == "screenshots" && v.Files? then ScreenshotEntries(v.fs)
    else if key == "coverPhoto" && Truthy(v) then [FormEntry("coverPhoto", ToFormValue(v))]
    else if v != Undefined then [FormEntry(key, ToFormValue(v))]
    else []
  }

  /** The entries `updateProject` appends for `data`, its keys in `Object.keys` order. */
  function UpdateEntries(data: seq<(string, JsValue)>): seq<FormEntry> {
    Flatten(data, PairEntries)
  }

  /** The entries of each element in turn. */
  function Flatten<T>(data: seq<T>, entries: T -> seq<FormEntry>): seq<FormEntry> {
    if data == [] then []
    else Flatten(data[..|data| - 1], entries) + entries(data[|data| - 1])
  }

  /** The entries of one key and its value. */
  function PairEntries(pair: (string, JsValue)): seq<FormEntry> {
    KeyEntries(pair.0, pair.1)
  }

  /** The form of `updateProject`, built by successive appends. */
  method UpdateProjectForm(data: seq<(string, JsValue)>) returns (form: seq<FormEntry>)
    ensures form == UpdateEntries(data)
  {
    form := [];
    var i := 0;
    while i < |data|
      invariant 0 <= i <= |data|
      invariant form == UpdateEntries(data[..i])
    {
      var (key, v) := data[i];
      assert data[..i + 1][..i] == data[..i];
      if key == "screenshots" && v.Files? {
        ghost var before := form;
        var j := 0;
        while j < |v.fs|
          invariant 0 <= j <= |v.fs|
          invariant form == before + ScreenshotEntries(v.fs[..j])
        {
          form := form + [FormEntry("screenshots", Blob(v.fs[j]))];
          j := j + 1;
        }
        assert v.fs[..j] == v.fs;
      } else if key == "coverPhoto" && Truthy(v) {
        form := form + [FormEntry("coverPhoto", ToFormValue(v))];
      } else if v != Undefined {
        form := form + [FormEntry(key, ToFormValue(v))];
      }
      i := i + 1;
    }
    assert data[..i] == data;
  }

  lemma {:induction false} FlattenAppend<T>(a: seq<T>, b: seq<T>, entries: T -> seq<FormEntry>)
    ensures Flatten(a + b, entries) == Flatten(a, entries) + Flatten(b, entries)
    decreases |b|
  {
    if b == [] {
      assert a + b == a;
    } else {
      var ab := a + b;
      var init := b[..|b| - 1];
      assert ab[..|ab| - 1] == a + init;
      assert ab[|ab| - 1] == b[|b| - 1];
      FlattenAppend(a, init, entries);
    }
  }

  lemma UpdateEntriesAppend(a: seq<(string, JsValue)>, b: seq<(string, JsValue)>)
    ensures UpdateEntries(a + b) == UpdateEntries(a) + UpdateEntries(b)
  {
    FlattenAppend(a, b, PairEntries);
  }

  /** A key is read back from the update form exactly as its own entries:
      the entries of the other keys never carry it. */
  lemma {:induction false} UpdateFormReadBack(data: seq<(string, JsValue)>, i: int)
    requires 0 <= i < |data|
    requires forall j :: 0 <= j < |data| && j != i ==> data[j].0 != data[i].0
    ensures GetAll(UpdateEntries(data), data[i].0) == GetAll(KeyEntries(data[i].0, data[i].1), data[i].0)
  {
    var key := data[i].0;
    assert data == data[..i] + [data[i]] + data[i + 1..];
    UpdateEntriesAppend(data[..i] + [data[i]], data[i + 1..]);
    UpdateEntriesAppend(data[..i], [data[i]]);
    assert UpdateEntries([data[i]]) == KeyEntries(key, data[i].1) by {
      assert [data[i]][..0] == [];
    }
    OtherKeysAbsent(data[..i], key);
    OtherKeysAbsent(data[i + 1..], key);
    GetAllAppend(UpdateEntries(data[..i]) + KeyEntries(key, data[i].1), UpdateEntries(data[i + 1..]), key);
    GetAllAppend(UpdateEntries(data[..i]), KeyEntries(key, data[i].1), key);
  }

  lemma {:induction false} OtherKeysAbsent(data: seq<(string, JsValue)>, key: string)
    requires forall j :: 0 <= j < |data| ==> data[j].0 != key
    ensures GetAll(UpdateEntries(data), key) == []
    decreases |data|
  {
    if data != [] {
      var init := data[..|data| - 1];
      var last := KeyEntries(data[|data| - 1].0, data[|data| - 1].1);
      OtherKeysAbsent(init, key);
      GetAllAppend(UpdateEntries(init), last, key);
      NoEntryUnderKey(last, key);
    }
  }

  lemma {:induction false} NoEntryUnderKey(entries: seq<FormEntry>, key: string)
    requires forall i :: 0 <= i < |entries| ==> entries[i].key != key
    ensures GetAll(entries, key) == []
    decreases |entries|
  {
    if entries != [] {
      NoEntryUnderKey(entries[..|entries| - 1], key);
    }
  }

  /** A screenshots array is sent as one entry per file. */
  lemma ScreenshotsExpand(files: seq<FileRef>)
    ensures GetAll(KeyEntries("screenshots", Files(files)), "screenshots") == Blobs(files)
  {
    ScreenshotValues(files, "screenshots");
  }

  /** A `null` cover photo is not left out: it is sent as the text `null`. */
  lemma NullCoverPhotoSent()
    ensures KeyEntries("coverPhoto", Null) == [FormEntry("coverPhoto", Text("null"))]
  {
  }

  /** A key whose value is `undefined` sends nothing, and every other value sends something. */
  lemma UndefinedSkipped(key: string, v: JsValue)
    ensures KeyEntries(key, v) == [] <==> v == Undefined || (key == "screenshots" && v == Files([]))
  {
    if key == "screenshots" && v.Files? && v.fs != [] {
      assert KeyEntries(key, v)[0] == FormEntry("screenshots", Blob(v.fs[0]));
    }
  }
}
