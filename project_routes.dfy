/**
 * The project routes of the flat-file backend: the upload filter, the two
 * listings, the visibility rule of a single project, and create, update and
 * delete over the shared in-memory `projects` array.
 */
module ProjectRoutes {
  import opened Wrappers
  import opened JsText
  import Bearer
  import ErrorHandler

  /** A stored project. Times are timestamps (the source keeps ISO strings and
      compares them through `new Date`). */
  datatype Project = Project(
    id: string,
    title: string,
    description: string,
    coverPhoto: string,
    screenshots: seq<string>,
    githubLink: string,
    liveLink: string,
    isPublic: bool,
    userId: string,
    createdAt: int,
    updatedAt: int)

  /** The multipart text fields of a create or update request; None is a field not sent. */
  datatype ProjectFields = ProjectFields(
    title: Option<string>,
    description: Option<string>,
    githubLink: Option<string>,
    liveLink: Option<string>,
    isPublic: Option<string>)

  /** The names under which the upload middleware stored the files of each
      field; an empty sequence is a field with no upload. */
  datatype Uploads = Uploads(coverPhoto: seq<string>, screenshots: seq<string>)

  /** A handler's answer: a success status with its body, or an error status with its message. */
  datatype Outcome<T> = Done(status: int, value: T) | Refused(status: int, message: string)

  const NotFound := "Project not found"
  const AccessDenied := "Access denied"
  const FieldsRequired := "Title and description are required"
  const Deleted := "Project deleted successfully"

  // ---------------------------------------------------------------- upload filter

  /** The path with its trailing '/' characters removed. */
  function StripTrailingSlashes(path: string): (r: string)
    ensures |r| <= |path| && r == path[..|r|]
    ensures r == [] || r[|r| - 1] != '/'
  {
    if path != [] && path[|path| - 1] == '/' then StripTrailingSlashes(path[..|path| - 1]) else path
  }

  /** What follows the last '/'. */
  function BaseName(path: string): (r: string)
    ensures |r| <= |path| && r == path[|path| - |r|..]
    ensures '/' !in r
  {
    if path == [] || path[|path| - 1] == '/' then []
    else
      var init := path[..|path| - 1];
      var r := BaseName(init) + [path[|path| - 1]];
      assert path[|path| - |r|..] == init[|init| - |r| + 1..] + [path[|path| - 1]];
      r
  }

  /** The index of the last '.', or -1. */
  function LastDot(s: string): (k: int)
    ensures -1 <= k < |s|
    ensures k >= 0 ==> s[k] == '.'
    ensures forall j :: k < j < |s| ==> s[j] != '.'
  {
    if s == [] then -1
    else if s[|s| - 1] == '.' then |s| - 1
    else LastDot(s[..|s| - 1])
  }

  /** `path.extname` of Node's POSIX path module: from the last '.' of the last
      path segment to its end; empty when that segment has no '.', when its
      only leading '.' is the last one (a dot-file), or when it is "..". */
  function ExtName(path: string): string {
    var b := BaseName(StripTrailingSlashes(path));
    var d := LastDot(b);
    if d <= 0 || b == ".." then "" else b[d..]
  }

  /** An extension is empty, or a '.' followed by neither '.' nor '/', and it
      ends the path once trailing '/' characters are dropped. */
  lemma ExtNameShape(path: string)
    ensures var ext := ExtName(path);
      && (ext == [] || (ext[0] == '.' && '.' !in ext[1..] && '/' !in ext))
      && |ext| <= |StripTrailingSlashes(path)|
      && ext == StripTrailingSlashes(path)[|StripTrailingSlashes(path)| - |ext|..]
  {
    var stripped := StripTrailingSlashes(path);
    var b := BaseName(stripped);
    var d := LastDot(b);
    if 0 < d && b != ".." {
      FromLastDot(b, d);
      SuffixOfSuffix(stripped, b, d);
    }
  }

  lemma FromLastDot(b: string, d: int)
    requires 0 <= d < |b| && b[d] == '.' && '/' !in b
    requires forall j :: d < j < |b| ==> b[j] != '.'
    ensures b[d..][0] == '.' && '.' !in b[d..][1..] && '/' !in b[d..]
  {
    forall j | 0 <= j < |b| - d - 1 ensures b[d..][1..][j] != '.' {
      assert b[d..][1..][j] == b[d + 1 + j];
    }
  }

  lemma SuffixOfSuffix(s: string, b: string, d: int)
    requires |b| <= |s| && b == s[|s| - |b|..] && 0 <= d <= |b|
    ensures b[d..] == s[|s| - (|b| - d)..]
  {
  }

  /** The image type names of the filter's pattern. */
  const ImageTypes: seq<string> := ["jpeg", "jpg", "png", "gif", "webp"]

  /** `/jpeg|jpg|png|gif|webp/.test(s)`: an unanchored alternation. */
  predicate IsImageType(s: string) {
    Includes(s, "jpeg") || Includes(s, "jpg") || Includes(s, "png") || Includes(s, "gif") || Includes(s, "webp")
  }

  /** `fileFilter`: true is `cb(null, true)`; false is the rejection `UploadRejection`. */
  predicate FileFilter(originalName: string, mimetype: string) {
    IsImageType(Lower(ExtName(originalName))) && IsImageType(mimetype)
  }

  /** The error the filter hands to multer for a rejected file. */
  const UploadRejection := ErrorHandler.Failure(false, None, "Error", "Only image files are allowed")

  /** `s` contains one of the image type names somewhere. */
  ghost predicate ContainsImageType(s: string) {
    exists k, i :: 0 <= k < |ImageTypes| && OccursAt(s, ImageTypes[k], i)
  }

  lemma ImageTypeIff(s: string)
    ensures IsImageType(s) <==> ContainsImageType(s)
  {
    forall k | 0 <= k < |ImageTypes| ensures Includes(s, ImageTypes[k]) <==> exists i :: OccursAt(s, ImageTypes[k], i) {
      IncludesIff(s, ImageTypes[k]);
    }
    assert ImageTypes[0] == "jpeg" && ImageTypes[1] == "jpg" && ImageTypes[2] == "png";
    assert ImageTypes[3] == "gif" && ImageTypes[4] == "webp";
  }

  /** A file is accepted exactly when its lower-cased extension and its
      mimetype each contain one of the image type names. */
  lemma FileFilterIff(originalName: string, mimetype: string)
    ensures FileFilter(originalName, mimetype)
        <==> ContainsImageType(Lower(ExtName(originalName))) && ContainsImageType(mimetype)
  {
    ImageTypeIff(Lower(ExtName(originalName)));
    ImageTypeIff(mimetype);
  }

  /** A rejected file ends as a 400 that repeats the filter's message. */
  lemma UploadRejectionIs400(nodeEnv: Option<string>)
    ensures ErrorHandler.HandleError(UploadRejection, nodeEnv) == ErrorHandler.ErrorReply(400, "Only image files are allowed", None)
  {
  }

  lemma {:induction false} BaseNameWithoutSlash(path: string)
    requires '/' !in path
    ensures BaseName(path) == path
  {
    if path != [] {
      BaseNameWithoutSlash(path[..|path| - 1]);
      assert path == path[..|path| - 1] + [path[|path| - 1]];
    }
  }

  lemma {:induction false} LastDotBefore(stem: string, ext: string)
    requires '.' !in ext
    ensures LastDot(stem + "." + ext) == |stem|
  {
    if ext != [] {
      var init := ext[..|ext| - 1];
      LastDotBefore(stem, init);
      assert (stem + "." + ext)[..|stem + "." + ext| - 1] == stem + "." + init;
    }
  }

  /** A file name `stem.ext` without '/' has the extension `.ext`, unless it is
      the name ".." itself. */
  lemma ExtNameOfName(stem: string, ext: string)
    requires stem != [] && !(stem == "." && ext == [])
    requires '/' !in stem && '/' !in ext && '.' !in ext
    ensures ExtName(stem + "." + ext) == "." + ext
  {
    var name := stem + "." + ext;
    assert name[|stem|..] == "." + ext;
    assert '/' !in name;
    assert StripTrailingSlashes(name) == name by {
      assert name[|name| - 1] in name;
    }
    BaseNameWithoutSlash(name);
    LastDotBefore(stem, ext);
    var b := BaseName(StripTrailingSlashes(name));
    assert b == name;
    assert LastDot(b) == |stem|;
    assert name != "..";
  }

  /** A dot-file `.name` without a further '.' or '/' has no extension. */
  lemma ExtNameOfDotFile(name: string)
    requires '/' !in name && '.' !in name
    ensures ExtName("." + name) == ""
  {
    var path := "." + name;
    assert '/' !in path;
    assert StripTrailingSlashes(path) == path by {
      assert path[|path| - 1] in path;
    }
    BaseNameWithoutSlash(path);
    LastDotBefore([], name);
    assert [] + "." + name == path;
    assert LastDot(BaseName(StripTrailingSlashes(path))) == 0;
  }

  /** Any string built around `png` passes the type test. */
  lemma PngIsImageType(a: string, b: string)
    ensures IsImageType(a + "png" + b)
  {
    IncludesAt(a, "png", b);
  }

  /** The mimetype `image/png` passes the type test. */
  lemma PngMimetype()
    ensures IsImageType("image/png")
  {
    PngIsImageType("image/", "");
    assert "image/" + "png" + "" == "image/png";
  }

  /** The extension is lower-cased before the search: a name whose extension
      is `.PNG`, such as `shot.PNG`, is accepted with an image mimetype such as
      `image/png`. */
  lemma UpperCaseExtensionAccepted(name: string, mimetype: string)
    requires ExtName(name) == ".PNG" && IsImageType(mimetype)
    ensures FileFilter(name, mimetype)
  {
    assert Lower(".PNG") == "." + "png" + "";
    PngIsImageType(".", "");
  }

  /** The mimetype is not lower-cased: `IMAGE/PNG` is refused whatever the name. */
  lemma UpperCaseMimetypeRejected(name: string)
    ensures !FileFilter(name, "IMAGE/PNG")
  {
    var mime := "IMAGE/PNG";
    assert 'j' !in mime && 'p' !in mime && 'g' !in mime && 'w' !in mime;
    MissingCharNotIncluded(mime, "jpeg", 'j');
    MissingCharNotIncluded(mime, "jpg", 'j');
    MissingCharNotIncluded(mime, "png", 'p');
    MissingCharNotIncluded(mime, "gif", 'g');
    MissingCharNotIncluded(mime, "webp", 'w');
  }

  /** The search is unanchored: a name whose extension merely contains a
      type name, such as `shot.pngx`, passes with an image mimetype. */
  lemma LongerExtensionAccepted(name: string, mimetype: string)
    requires ExtName(name) == ".pngx" && IsImageType(mimetype)
    ensures FileFilter(name, mimetype)
  {
    assert Lower(".pngx") == "." + "png" + "x";
    PngIsImageType(".", "x");
  }

  /** A dot-file such as `.png` has no extension, so it is refused whatever its mimetype. */
  lemma DotFileRejected(name: string, mimetype: string)
    requires '/' !in name && '.' !in name
    ensures !FileFilter("." + name, mimetype)
  {
    ExtNameOfDotFile(name);
    assert Lower("") == "";
  }

  // ---------------------------------------------------------------- listings

  /** Inserts `p` before the first entry that is not newer than it. */
  function InsertNewest(p: Project, s: seq<Project>): seq<Project> {
    if s == [] || s[0].createdAt <= p.createdAt then [p] + s
    else [s[0]] + InsertNewest(p, s[1..])
  }

  /** `sort((a, b) => new Date(b.createdAt) - new Date(a.createdAt))`: a stable
      sort, newest first. */
  function NewestFirst(s: seq<Project>): seq<Project> {
    if s == [] then [] else InsertNewest(s[0], NewestFirst(s[1..]))
  }

  ghost predicate IsNewestFirst(s: seq<Project>) {
    forall i, j :: 0 <= i < j < |s| ==> s[i].createdAt >= s[j].createdAt
  }

  /** The entries created at time `t`, in order. */
  function CreatedAtTime(s: seq<Project>, t: int): seq<Project> {
    Filter(s, (p: Project) => p.createdAt == t)
  }

  lemma {:induction false} InsertNewestPermutes(p: Project, s: seq<Project>)
    ensures multiset(InsertNewest(p, s)) == multiset(s) + multiset{p}
  {
    if s != [] && s[0].createdAt > p.createdAt {
      InsertNewestPermutes(p, s[1..]);
      assert s == [s[0]] + s[1..];
    }
  }

  lemma {:induction false} InsertNewestSorted(p: Project, s: seq<Project>)
    requires IsNewestFirst(s)
    ensures IsNewestFirst(InsertNewest(p, s))
    ensures InsertNewest(p, s)[0] == p || InsertNewest(p, s)[0] == s[0]
  {
    if s != [] && s[0].createdAt > p.createdAt {
      var rest := InsertNewest(p, s[1..]);
      InsertNewestSorted(p, s[1..]);
      var r := InsertNewest(p, s);
      assert r == [s[0]] + rest;
      forall i, j | 0 <= i < j < |r| ensures r[i].createdAt >= r[j].createdAt {
        if i == 0 {
          assert rest[0].createdAt >= rest[j - 1].createdAt;
          assert s[0].createdAt >= rest[0].createdAt;
        } else {
          assert r[i] == rest[i - 1] && r[j] == rest[j - 1];
        }
      }
    }
  }

  lemma {:induction false} InsertNewestAtTime(p: Project, s: seq<Project>, t: int)
    ensures CreatedAtTime(InsertNewest(p, s), t) == if p.createdAt == t then [p] + CreatedAtTime(s, t) else CreatedAtTime(s, t)
  {
    if s == [] || s[0].createdAt <= p.createdAt {
      assert InsertNewest(p, s)[1..] == s;
    } else {
      InsertNewestAtTime(p, s[1..], t);
      assert InsertNewest(p, s)[1..] == InsertNewest(p, s[1..]);
      assert s[0].createdAt != t || p.createdAt != t;
    }
  }

  /** The sort puts the newest first and keeps every entry, as often as it occurs. */
  lemma {:induction false} NewestFirstSorts(s: seq<Project>)
    ensures IsNewestFirst(NewestFirst(s))
    ensures multiset(NewestFirst(s)) == multiset(s)
  {
    if s != [] {
      NewestFirstSorts(s[1..]);
      InsertNewestSorted(s[0], NewestFirst(s[1..]));
      InsertNewestPermutes(s[0], NewestFirst(s[1..]));
      assert s == [s[0]] + s[1..];
    }
  }

  /** The sort is stable: entries created at the same time keep their order. */
  lemma {:induction false} NewestFirstStable(s: seq<Project>, t: int)
    ensures CreatedAtTime(NewestFirst(s), t) == CreatedAtTime(s, t)
  {
    if s != [] {
      NewestFirstStable(s[1..], t);
      InsertNewestAtTime(s[0], NewestFirst(s[1..]), t);
    }
  }

  /** GET `/`: the public projects, newest first. */
  function ListPublic(table: seq<Project>): seq<Project> {
    NewestFirst(Filter(table, (p: Project) => p.isPublic))
  }

  /** GET `/user`: the caller's projects, newest first. */
  function ListOwned(table: seq<Project>, userId: string): seq<Project> {
    NewestFirst(Filter(table, (p: Project) => p.userId == userId))
  }

  /** The public listing holds each public project as often as the table does,
      and nothing else, newest first, ties in table order. */
  lemma ListPublicSpec(table: seq<Project>, t: int)
    ensures IsNewestFirst(ListPublic(table))
    ensures forall p :: multiset(ListPublic(table))[p] == if p.isPublic then multiset(table)[p] else 0
    ensures CreatedAtTime(ListPublic(table), t) == CreatedAtTime(Filter(table, (p: Project) => p.isPublic), t)
  {
    NewestFirstSorts(Filter(table, (p: Project) => p.isPublic));
    NewestFirstStable(Filter(table, (p: Project) => p.isPublic), t);
  }

  /** The user listing is the same with ownership in place of visibility. */
  lemma ListOwnedSpec(table: seq<Project>, userId: string, t: int)
    ensures IsNewestFirst(ListOwned(table, userId))
    ensures forall p :: multiset(ListOwned(table, userId))[p] == if p.userId == userId then multiset(table)[p] else 0
    ensures CreatedAtTime(ListOwned(table, userId), t) == CreatedAtTime(Filter(table, (p: Project) => p.userId == userId), t)
  {
    NewestFirstSorts(Filter(table, (p: Project) => p.userId == userId));
    NewestFirstStable(Filter(table, (p: Project) => p.userId == userId), t);
  }

  // ---------------------------------------------------------------- lookup

  /** `findIndex((p) => p.id === id)`: the first index with that id, or -1. */
  function IndexOfId(table: seq<Project>, id: string): int {
    FindIndex(table, (p: Project) => p.id == id)
  }

  /** GET `/:id` once the caller is known (None for an anonymous caller). */
  function GetById(table: seq<Project>, id: string, requester: Option<string>): (r: Outcome<Project>)
    ensures r == Refused(404, NotFound) <==> forall p :: p in table ==> p.id != id
    ensures r.Refused? ==> r == Refused(404, NotFound) || r == Refused(403, AccessDenied)
    ensures r == Refused(403, AccessDenied) <==>
      && 0 <= IndexOfId(table, id)
      && !table[IndexOfId(table, id)].isPublic && requester != Some(table[IndexOfId(table, id)].userId)
    ensures r.Done? ==> && r.status == 200 && 0 <= IndexOfId(table, id)
                        && r.value == table[IndexOfId(table, id)]
                        && (r.value.isPublic || requester == Some(r.value.userId))
  {
    var i := IndexOfId(table, id);
    if i < 0 then Refused(404, NotFound)
    else if !table[i].isPublic && Some(table[i].userId) != requester then Refused(403, AccessDenied)
    else Done(200, table[i])
  }

  /** GET `/:id` as received: the caller comes from the optional bearer token. */
  function GetProject(table: seq<Project>, id: string, authorization: Option<string>,
                      verify: string -> Option<string>): Outcome<Project>
  {
    GetById(table, id, Bearer.Requester(authorization, verify))
  }

  /** A private project is refused to a request without a token, and shown to
      its owner's verified token. */
  lemma PrivateProjectVisibility(table: seq<Project>, id: string, verify: string -> Option<string>, token: string)
    requires 0 <= IndexOfId(table, id) && !table[IndexOfId(table, id)].isPublic
    requires ' ' !in token && token != "" && verify(token) == Some(table[IndexOfId(table, id)].userId)
    ensures GetProject(table, id, None, verify) == Refused(403, AccessDenied)
    ensures GetProject(table, id, Some("Bearer " + token), verify) == Done(200, table[IndexOfId(table, id)])
  {
    Bearer.TokenOfHeader("Bearer", token, "");
    assert "Bearer" + " " + token == "Bearer " + token;
  }

  // ---------------------------------------------------------------- the shared table

  /** The public path of each uploaded file, in upload order. */
  function UploadPaths(names: seq<string>): (paths: seq<string>)
    ensures |paths| == |names|
    ensures forall i :: 0 <= i < |names| ==> paths[i] == "/uploads/" + names[i]
  {
    seq(|names|, i requires 0 <= i < |names| => "/uploads/" + names[i])
  }

  /** The rules of PUT `/:id` for each field: `p` is `q` after the request.
      Title and description change only to a non-empty value, links and
      visibility whenever they are sent, the images only when new ones are
      uploaded; identity, owner and creation time never change. */
  ghost predicate IsPatched(q: Project, p: Project, fields: ProjectFields, files: Uploads, now: int) {
    && p.id == q.id && p.userId == q.userId && p.createdAt == q.createdAt
    && p.updatedAt == now
    && p.title == (if IsTruthy(fields.title) then fields.title.value else q.title)
    && p.description == (if IsTruthy(fields.description) then fields.description.value else q.description)
    && p.githubLink == fields.githubLink.GetOr(q.githubLink)
    && p.liveLink == fields.liveLink.GetOr(q.liveLink)
    && p.isPublic == (if fields.isPublic.Some? then fields.isPublic == Some("true") else q.isPublic)
    && p.coverPhoto == (if files.coverPhoto != [] then "/uploads/" + files.coverPhoto[0] else q.coverPhoto)
    && p.screenshots == (if files.screenshots != [] then UploadPaths(files.screenshots) else q.screenshots)
  }

  /** The shared `projects` array that the write routes change in place
      (`saveProjects`, a file write, is not modelled). */
  class ProjectTable {
    var projects: seq<Project>

    /** Every project has a title and a description: create checks it and
        update and delete keep it. The array loaded at start-up is not
        checked, so the constructor does not establish it. */
    ghost predicate Valid()
      reads this
    {
      forall i :: 0 <= i < |projects| ==> projects[i].title != "" && projects[i].description != ""
    }

    constructor (initial: seq<Project>)
      ensures projects == initial
    {
      projects := initial;
    }

    /** POST `/` by the authenticated user `requester`; `newId` and `now` stand
        for `uuidv4()` and the current time. */
    method Create(requester: string, fields: ProjectFields, files: Uploads, newId: string, now: int)
      returns (r: Outcome<Project>)
      modifies this
      ensures !IsTruthy(fields.title) || !IsTruthy(fields.description) ==>
        r == Refused(400, FieldsRequired) && projects == old(projects)
      ensures IsTruthy(fields.title) && IsTruthy(fields.description) ==>
        r.Done? && r.status == 201 && projects == old(projects) + [r.value]
      ensures r.Done? ==>
        && r.value.id == newId && r.value.userId == requester
        && r.value.title == fields.title.value && r.value.description == fields.description.value
        && r.value.coverPhoto == (if files.coverPhoto != [] then "/uploads/" + files.coverPhoto[0] else "")
        && r.value.screenshots == UploadPaths(files.screenshots)
        && r.value.githubLink == fields.githubLink.GetOr("")
        && r.value.liveLink == fields.liveLink.GetOr("")
        && r.value.isPublic == (fields.isPublic == Some("true"))
        && r.value.createdAt == now && r.value.updatedAt == now
      ensures old(Valid()) ==> Valid()
    {
      if !IsTruthy(fields.title) || !IsTruthy(fields.description) {
        return Refused(400, FieldsRequired);
      }
      var coverPhoto := "";
      if files.coverPhoto != [] {
        coverPhoto := "/uploads/" + files.coverPhoto[0];
      }
      var p := Project(newId, fields.title.value, fields.description.value, coverPhoto,
                       UploadPaths(files.screenshots), fields.githubLink.GetOr(""), fields.liveLink.GetOr(""),
                       fields.isPublic == Some("true"), requester, now, now);
      projects := projects + [p];
      r := Done(201, p);
    }

    /** PUT `/:id` by the authenticated user `requester`. */
    method Update(requester: string, id: string, fields: ProjectFields, files: Uploads, now: int)
      returns (r: Outcome<Project>)
      modifies this
      ensures IndexOfId(old(projects), id) < 0 ==> r == Refused(404, NotFound)
      ensures 0 <= IndexOfId(old(projects), id) && old(projects)[IndexOfId(old(projects), id)].userId != requester ==>
        r == Refused(403, AccessDenied)
      ensures 0 <= IndexOfId(old(projects), id) && old(projects)[IndexOfId(old(projects), id)].userId == requester ==>
        r.Done?
      ensures r.Refused? ==> projects == old(projects)
      ensures r.Done? ==>
        var i := IndexOfId(old(projects), id);
        && 0 <= i && r.status == 200
        && projects == old(projects)[i := r.value]
        && IsPatched(old(projects)[i], r.value, fields, files, now)
      ensures old(Valid()) ==> Valid()
    {
      var i := IndexOfId(projects, id);
      if i < 0 {
        return Refused(404, NotFound);
      }
      var p := projects[i];
      if p.userId != requester {
        return Refused(403, AccessDenied);
      }
      // Each assignment of the route is guarded by its own condition; the
      // fields are independent, so they are taken one expression each.
      p := p.(
        title := if IsTruthy(fields.title) then fields.title.value else p.title,
        description := if IsTruthy(fields.description) then fields.description.value else p.description,
        githubLink := fields.githubLink.GetOr(p.githubLink),
        liveLink := fields.liveLink.GetOr(p.liveLink),
        isPublic := if fields.isPublic.Some? then fields.isPublic.value == "true" else p.isPublic,
        coverPhoto := if files.coverPhoto != [] then "/uploads/" + files.coverPhoto[0] else p.coverPhoto,
        screenshots := if files.screenshots != [] then UploadPaths(files.screenshots) else p.screenshots);
      p := p.(updatedAt := now);
      projects := projects[i := p];
      r := Done(200, p);
    }

    /** DELETE `/:id` by the authenticated user `requester`: `splice(index, 1)`. */
    method Delete(requester: string, id: string) returns (r: Outcome<string>)
      modifies this
      ensures IndexOfId(old(projects), id) < 0 ==> r == Refused(404, NotFound)
      ensures 0 <= IndexOfId(old(projects), id) && old(projects)[IndexOfId(old(projects), id)].userId != requester ==>
        r == Refused(403, AccessDenied)
      ensures 0 <= IndexOfId(old(projects), id) && old(projects)[IndexOfId(old(projects), id)].userId == requester ==>
        r == Done(200, Deleted)
      ensures r.Refused? ==> projects == old(projects)
      ensures r.Done? ==>
        var i := IndexOfId(old(projects), id);
        && 0 <= i
        && projects == old(projects)[..i] + old(projects)[i + 1..]
        && |projects| == |old(projects)| - 1
        && multiset(projects) + multiset{old(projects)[i]} == multiset(old(projects))
      ensures old(Valid()) ==> Valid()
    {
      var i := IndexOfId(projects, id);
      if i < 0 {
        return Refused(404, NotFound);
      }
      if projects[i].userId != requester {
        return Refused(403, AccessDenied);
      }
      assert projects == projects[..i] + [projects[i]] + projects[i + 1..];
      projects := projects[..i] + projects[i + 1..];
      r := Done(200, Deleted);
    }
  }
}
