/** Upload and download links: the object-to-fid map of `S3Client` and the GetUploadUrl requests that use it. */
module Upload {
  import opened Wrappers
  import opened Text
  import opened Endpoints
  import opened Json

  datatype Storage = Storage(public: Endpoint, bucket: string, accessKey: string, secretKey: string)

  /** The object key of one request. */
  function ObjectKey(uid: int, time: int, fileName: string): string
  {
    ToString(uid) + "/" + ToString(time) + "_" + fileName
  }

  lemma ObjectKeyInjective(uid: int, time: int, file: string, uid': int, time': int, file': string)
    requires ObjectKey(uid, time, file) == ObjectKey(uid', time', file')
    ensures uid == uid' && time == time' && file == file'
  {
    var u, u', t, t' := ToString(uid), ToString(uid'), ToString(time), ToString(time');
    forall c | c in u || c in u' || c in t || c in t' ensures c != '/' && c != '_' {
      var n := if c in u then uid else if c in u' then uid' else if c in t then time else time';
      ToStringCharacters(n, c);
    }
    assert ObjectKey(uid, time, file) == u + ['/'] + (t + ['_'] + file);
    assert ObjectKey(uid', time', file') == u' + ['/'] + (t' + ['_'] + file');
    SplitAtSeparator(u, u', '/', t + ['_'] + file, t' + ['_'] + file');
    SplitAtSeparator(t, t', '_', file, file');
    ToStringInjective(uid, uid');
    ToStringInjective(time, time');
  }

  /** The three parts are read back by cutting at the first slash and the first underscore after it. */
  lemma ObjectKeyReads(uid: int, time: int, file: string)
    ensures var key, u, t := ObjectKey(uid, time, file), ToString(uid), ToString(time);
            && Find(key, "/") == Some(|u|) && key[..|u|] == u
            && Find(key[|u| + 1..], "_") == Some(|t|) && key[|u| + 1..][..|t|] == t && key[|u| + 1..][|t| + 1..] == file
  {
    var u, t := ToString(uid), ToString(time);
    forall c | c in u || c in t ensures c != '/' && c != '_' {
      ToStringCharacters(if c in u then uid else time, c);
    }
    assert ObjectKey(uid, time, file) == u + "/" + (t + "_" + file);
    CutAtFirst(u, '/', t + "_" + file);
    CutAtFirst(t, '_', file);
  }

  lemma CutAtFirst(a: string, c: char, b: string)
    requires c !in a
    ensures var s := a + [c] + b; Find(s, [c]) == Some(|a|) && s[..|a|] == a && s[|a| + 1..] == b
  {
    var s := a + [c] + b;
    assert At(s, [c], |a|);
    forall j: nat | j < |a| ensures !At(s, [c], j) {
      assert s[j..j + 1][0] == a[j];
    }
    FirstIsFound(s, [c], 0, |a|);
  }

  function DownloadUrl(c: Storage, fid: string): string
  {
    BaseUrl(c.public) + "/" + fid + "?collection=" + c.bucket
  }

  function UploadUrl(c: Storage, fid: string, objectName: string): string
  {
    var url := BaseUrl(c.public) + "/" + fid + "?collection=" + c.bucket + "&filename=" + objectName;
    var withKey := if c.accessKey == "" then url else url + "&accessKey=" + c.accessKey;
    if c.secretKey == "" then withKey else withKey + "&secretKey=" + c.secretKey
  }

  /** The fid the master assigned, "" when it sent no body or no fid. */
  function AssignedFid(response: string): string
  {
    if response == "" then "" else ExtractJsonValue(response, "fid")
  }

  /** The master did not answer, or with an object that has no field "fid". */
  ghost predicate NoFid(response: string)
  {
    response == "" || exists fields: seq<Field> :: && AllPlain(fields) && response == Print(fields)
                                       && forall i :: 0 <= i < |fields| ==> fields[i].key != "fid"
  }

  lemma NoFidIsAssigned(response: string)
    requires NoFid(response)
    ensures AssignedFid(response) == ""
  {
    if response != "" {
      var fields: seq<Field> :| && AllPlain(fields) && response == Print(fields)
                    && forall i :: 0 <= i < |fields| ==> fields[i].key != "fid";
      assert Searchable("fid");
      hide ExtractJsonValue, Print, Searchable;
      ExtractUndoesPrint(fields, "fid");
      LookUpNone(fields, "fid");
    }
  }

  class S3Client {
    const storage: Storage
    var fids: map<string, string>

    constructor (storage: Storage)
      ensures this.storage == storage && fids == map[]
    {
      this.storage, fids := storage, map[];
    }

    /** `response` is the body of the master's answer to /dir/assign, "" when there was none. */
    method GetPresignedPutUrl(objectName: string, response: string) returns (url: string)
      modifies this
      ensures var fid := AssignedFid(response);
              if fid == "" then url == "" && fids == old(fids)
              else url == UploadUrl(storage, fid, objectName) && fids == old(fids)[objectName := fid]
      ensures NoFid(response) ==> url == "" && fids == old(fids)
      ensures response != "" && ExtractJsonValue(response, "fid") != "" ==>
                && url == UploadUrl(storage, ExtractJsonValue(response, "fid"), objectName)
                && fids == old(fids)[objectName := ExtractJsonValue(response, "fid")]
    {
      hide ExtractJsonValue, BaseUrl, NoFid;
      if NoFid(response) {
        NoFidIsAssigned(response);
      }
      if response == "" {
        return "";
      }
      var fid := ExtractJsonValue(response, "fid");
      if fid == "" {
        return "";
      }
      fids := fids[objectName := fid];
      url := BaseUrl(storage.public) + "/" + fid + "?collection=" + storage.bucket + "&filename=" + objectName;
      if storage.accessKey != "" {
        url := url + "&accessKey=" + storage.accessKey;
      }
      if storage.secretKey != "" {
        url := url + "&secretKey=" + storage.secretKey;
      }
    }

    method GetDownloadUrl(objectName: string) returns (url: string)
      ensures url == Linked(storage, fids, objectName)
    {
      var fid := "";
      if objectName in fids {
        fid := fids[objectName];
      }
      if fid == "" {
        return "";
      }
      url := BaseUrl(storage.public) + "/" + fid + "?collection=" + storage.bucket;
    }
  }

  /** The download link of an object, "" when the map has no fid for it. */
  function Linked(c: Storage, fids: map<string, string>, objectName: string): string
  {
    if objectName in fids && fids[objectName] != "" then DownloadUrl(c, fids[objectName]) else ""
  }

  // Interleaved requests. Each takes two steps, because the map's mutex is taken twice.

  datatype Progress = Begun | Assigned(upload: string) | Replied(upload: string, download: string)

  datatype Request = Request(uid: int, time: int, fileName: string, progress: Progress)
  {
    function Key(): string { ObjectKey(uid, time, fileName) }

    predicate SameTriple(r: Request) { uid == r.uid && time == r.time && fileName == r.fileName }

    predicate Succeeded() { progress.Replied? && progress.upload != "" && progress.download != "" }
  }

  datatype State = State(fids: map<string, string>, requests: seq<Request>)

  datatype Event =
    | Begin(uid: int, time: int, fileName: string)
    | Assign(i: nat, response: string)               // GetPresignedPutUrl
    | Link(i: nat)                                   // GetDownloadUrl and the reply

  /** One step; an event that does not fit the request's progress changes nothing. */
  function Apply(c: Storage, s: State, e: Event): State
  {
    match e
    case Begin(uid, time, fileName) => s.(requests := s.requests + [Request(uid, time, fileName, Begun)])
    case Assign(i, response) =>
      if i < |s.requests| && s.requests[i].progress.Begun? then
        var r, fid := s.requests[i], AssignedFid(response);
        if fid == "" then s.(requests := s.requests[i := r.(progress := Assigned(""))])
        else State(s.fids[r.Key() := fid], s.requests[i := r.(progress := Assigned(UploadUrl(c, fid, r.Key())))])
      else s
    case Link(i) =>
      if i < |s.requests| && s.requests[i].progress.Assigned? then
        var r := s.requests[i];
        var replied := Replied(r.progress.upload, Linked(c, s.fids, r.Key()));
        s.(requests := s.requests[i := r.(progress := replied)])
      else s
  }

  function After(c: Storage, es: seq<Event>): State
  {
    if es == [] then State(map[], []) else Apply(c, After(c, es[..|es| - 1]), es[|es| - 1])
  }

  ghost predicate DistinctTriples(s: State)
  {
    forall i, j :: 0 <= i < j < |s.requests| ==>
      !s.requests[i].SameTriple(s.requests[j])
  }

  /** The links of a request are those of the fid that the map holds under its key. */
  ghost predicate Agrees(c: Storage, fids: map<string, string>, r: Request)
  {
    && (!r.progress.Begun? && r.progress.upload != "" ==>
        r.Key() in fids && fids[r.Key()] != "" && r.progress.upload == UploadUrl(c, fids[r.Key()], r.Key()))
    && (r.progress.Replied? && r.progress.upload != "" ==> r.progress.download == DownloadUrl(c, fids[r.Key()]))
  }

  lemma StepAgrees(c: Storage, s: State, e: Event, i: nat)
    requires forall j :: 0 <= j < |s.requests| ==> Agrees(c, s.fids, s.requests[j])
    requires DistinctTriples(Apply(c, s, e)) && i < |Apply(c, s, e).requests|
    ensures Agrees(c, Apply(c, s, e).fids, Apply(c, s, e).requests[i])
  {
    if e.Assign? && e.i < |s.requests| && i != e.i {
      var a, b := s.requests[i], s.requests[e.i];
      var a', b' := Apply(c, s, e).requests[i], Apply(c, s, e).requests[e.i];
      if a.Key() == b.Key() {
        ObjectKeyInjective(a.uid, a.time, a.fileName, b.uid, b.time, b.fileName);
      }
    }
  }

  lemma FewerDistinct(c: Storage, s: State, e: Event)
    requires DistinctTriples(Apply(c, s, e))
    ensures DistinctTriples(s)
  {
    forall i, j | 0 <= i < j < |s.requests|
      ensures !s.requests[i].SameTriple(s.requests[j])
    {
      var a', b' := Apply(c, s, e).requests[i], Apply(c, s, e).requests[j];
    }
  }

  lemma {:induction false} AllAgree(c: Storage, es: seq<Event>, i: nat)
    requires DistinctTriples(After(c, es)) && i < |After(c, es).requests|
    ensures Agrees(c, After(c, es).fids, After(c, es).requests[i])
  {
    if es != [] {
      var before, e := es[..|es| - 1], es[|es| - 1];
      var s := After(c, before);
      FewerDistinct(c, s, e);
      forall j | 0 <= j < |s.requests| ensures Agrees(c, s.fids, s.requests[j]) {
        AllAgree(c, before, j);
      }
      StepAgrees(c, s, e, i);
    }
  }

  /** Whatever the interleaving, as long as no two requests have the same user, time and file name: a reply
      with an upload URL is successful and links one fid, and its download URL is the front of its upload URL. */
  lemma RepliesAgree(c: Storage, es: seq<Event>, i: nat)
    requires DistinctTriples(After(c, es)) && i < |After(c, es).requests|
    requires After(c, es).requests[i].progress.Replied? && After(c, es).requests[i].progress.upload != ""
    ensures var r := After(c, es).requests[i];
            && r.Succeeded() && r.progress.download <= r.progress.upload
            && exists fid :: fid != "" && r.progress.upload == UploadUrl(c, fid, r.Key())
                             && r.progress.download == DownloadUrl(c, fid)
  {
    AllAgree(c, es, i);
    var r := After(c, es).requests[i];
    DownloadIsPrefix(c, After(c, es).fids[r.Key()], r.Key());
  }

  lemma AfterThen(c: Storage, es: seq<Event>, e: Event)
    ensures After(c, es + [e]) == Apply(c, After(c, es), e)
  {
  }

  // Requests of the same user, time and file name: exactly when the two links of a reply agree.

  lemma MiddleInjective(pre: string, f: string, g: string, post: string)
    requires pre + f + post == pre + g + post
    ensures f == g
  {
    assert (pre + f + post)[|pre|..|pre| + |f|] == f && (pre + g + post)[|pre|..|pre| + |g|] == g;
  }

  lemma UrlsInjective(c: Storage, f: string, g: string, objectName: string)
    ensures DownloadUrl(c, f) == DownloadUrl(c, g) ==> f == g
    ensures UploadUrl(c, f, objectName) == UploadUrl(c, g, objectName) ==> f == g
  {
    if DownloadUrl(c, f) == DownloadUrl(c, g) {
      DownloadLayout(c, f);
      DownloadLayout(c, g);
      MiddleInjective(BaseUrl(c.public) + "/", f, g, DownloadTail(c));
    }
    if UploadUrl(c, f, objectName) == UploadUrl(c, g, objectName) {
      UploadLayout(c, f, objectName);
      UploadLayout(c, g, objectName);
      MiddleInjective(BaseUrl(c.public) + "/", f, g, UploadTail(c, objectName));
    }
  }

  function DownloadTail(c: Storage): string { "?collection=" + c.bucket }

  function UploadTail(c: Storage, objectName: string): string
  {
    DownloadTail(c) + "&filename=" + objectName
    + (if c.accessKey == "" then "" else "&accessKey=" + c.accessKey)
    + if c.secretKey == "" then "" else "&secretKey=" + c.secretKey
  }

  lemma DownloadLayout(c: Storage, fid: string)
    ensures DownloadUrl(c, fid) == BaseUrl(c.public) + "/" + fid + DownloadTail(c)
  {
  }

  lemma UploadLayout(c: Storage, fid: string, objectName: string)
    ensures UploadUrl(c, fid, objectName) == BaseUrl(c.public) + "/" + fid + UploadTail(c, objectName)
  {
    hide BaseUrl;
    var pre, tail := BaseUrl(c.public) + "/" + fid, DownloadTail(c) + "&filename=" + objectName;
    var access := if c.accessKey == "" then "" else "&accessKey=" + c.accessKey;
    var secret := if c.secretKey == "" then "" else "&secretKey=" + c.secretKey;
    assert UploadUrl(c, fid, objectName) == pre + tail + access + secret;
  }

  /** Event `j` assigns `fid` to a request with the triple of `r`. */
  ghost predicate Assigns(c: Storage, es: seq<Event>, j: nat, r: Request, fid: string)
  {
    && j < |es| && es[j].Assign? && fid != "" && AssignedFid(es[j].response) == fid
    && var s := After(c, es[..j]);
       es[j].i < |s.requests| && s.requests[es[j].i].progress.Begun? && s.requests[es[j].i].SameTriple(r)
  }

  /** The latest of these events assigns `fid`. */
  ghost predicate LatestFid(c: Storage, es: seq<Event>, r: Request, fid: string)
  {
    exists j: nat :: Assigns(c, es, j, r, fid) && forall k: nat, g :: j < k < |es| ==> !Assigns(c, es, k, r, g)
  }

  lemma LatestFidAfter(c: Storage, before: seq<Event>, e: Event, r: Request, fid: string)
    ensures var es, n := before + [e], |before|;
            LatestFid(c, es, r, fid) <==>
            Assigns(c, es, n, r, fid) || (LatestFid(c, before, r, fid) && forall g :: !Assigns(c, es, n, r, g))
  {
    var es, n := before + [e], |before|;
    hide After;
    forall j: nat, g | j < n ensures Assigns(c, es, j, r, g) <==> Assigns(c, before, j, r, g) {
      assert es[..j] == before[..j] && es[j] == before[j];
    }
    if LatestFid(c, before, r, fid) && forall g :: !Assigns(c, es, n, r, g) {
      var j: nat :| Assigns(c, before, j, r, fid) && forall k: nat, g :: j < k < n ==> !Assigns(c, before, k, r, g);
      assert Assigns(c, es, j, r, fid);
    }
    if LatestFid(c, es, r, fid) && !Assigns(c, es, n, r, fid) {
      var j: nat :| Assigns(c, es, j, r, fid) && forall k: nat, g :: j < k < |es| ==> !Assigns(c, es, k, r, g);
      assert Assigns(c, before, j, r, fid);
    }
  }

  /** After every history the map holds, under the key of a request, the fid that was assigned last to a
      request of its user, time and file name. */
  lemma {:induction false} FidsAreHistory(c: Storage, es: seq<Event>, r: Request, fid: string)
    ensures var fids := After(c, es).fids;
            (r.Key() in fids && fids[r.Key()] == fid) <==> LatestFid(c, es, r, fid)
  {
    if es != [] {
      var before, e := es[..|es| - 1], es[|es| - 1];
      var s := After(c, before);
      assert es == before + [e] && es[..|before|] == before;
      FidsAreHistory(c, before, r, fid);
      LatestFidAfter(c, before, e, r, fid);
      StepFids(c, s, e, r);
      hide After, Apply, AssignedFid, ObjectKey;
      if GetsFid(s, e, r) {
        assert Assigns(c, es, |before|, r, AssignedFid(e.response));
      }
    }
  }

  /** `e` assigns a fid to a request with the triple of `r`. */
  predicate GetsFid(s: State, e: Event, r: Request)
  {
    && e.Assign? && e.i < |s.requests| && s.requests[e.i].progress.Begun? && s.requests[e.i].SameTriple(r)
    && AssignedFid(e.response) != ""
  }

  /** Only such an event changes what the map holds for `r`. */
  lemma StepFids(c: Storage, s: State, e: Event, r: Request)
    ensures var fids, fids' := s.fids, Apply(c, s, e).fids;
            if GetsFid(s, e, r) then r.Key() in fids' && fids'[r.Key()] == AssignedFid(e.response)
            else (r.Key() in fids' <==> r.Key() in fids) && (r.Key() in fids ==> fids'[r.Key()] == fids[r.Key()])
  {
    hide AssignedFid, ObjectKey;
    if e.Assign? && e.i < |s.requests| && s.requests[e.i].Key() == r.Key() {
      var a := s.requests[e.i];
      ObjectKeyInjective(a.uid, a.time, a.fileName, r.uid, r.time, r.fileName);
    }
  }

  /** The two links of a reply are of one fid. */
  ghost predicate LinksOneFid(c: Storage, r: Request)
  {
    r.progress.Replied? && exists fid :: fid != "" && r.progress.upload == UploadUrl(c, fid, r.Key())
                                         && r.progress.download == DownloadUrl(c, fid)
  }

  /** One step: the links of a reply are of one fid exactly when the map still holds the fid of the upload link. */
  lemma LinkAgreesIff(c: Storage, s: State, i: nat, f: string)
    requires i < |s.requests| && f != "" && s.requests[i].progress == Assigned(UploadUrl(c, f, s.requests[i].Key()))
    ensures var key := s.requests[i].Key();
            LinksOneFid(c, Apply(c, s, Link(i)).requests[i]) <==> key in s.fids && s.fids[key] == f
  {
    var r, key := Apply(c, s, Link(i)).requests[i], s.requests[i].Key();
    hide UploadUrl, ObjectKey;
    UrlsNonempty(c, f, f, key);
    if LinksOneFid(c, r) {
      var fid :| fid != "" && r.progress.upload == UploadUrl(c, fid, key) && r.progress.download == DownloadUrl(c, fid);
      UrlsInjective(c, fid, f, key);
      UrlsNonempty(c, f, fid, key);
      UrlsInjective(c, fid, s.fids[key], key);
    }
  }

  /** Event `n` is the reply to request `i`. */
  ghost predicate RepliesAt(c: Storage, es: seq<Event>, i: nat, n: nat)
  {
    && n < |es| && es[n] == Link(i)
    && i < |After(c, es[..n]).requests| && After(c, es[..n]).requests[i].progress.Assigned?
  }

  /** In every history, a request with an upload URL has the URL of a fid, and the map has some fid for it. */
  lemma {:induction false} UploadHasFid(c: Storage, es: seq<Event>, i: nat) returns (f: string)
    requires i < |After(c, es).requests|
    requires var p := After(c, es).requests[i].progress; !p.Begun? && p.upload != ""
    ensures f != "" && After(c, es).requests[i].progress.upload == UploadUrl(c, f, After(c, es).requests[i].Key())
    ensures var fids, key := After(c, es).fids, After(c, es).requests[i].Key(); key in fids && fids[key] != ""
  {
    hide AssignedFid, ObjectKey, UploadUrl;
    var before, e := es[..|es| - 1], es[|es| - 1];
    var s := After(c, before);
    if i < |s.requests| && !s.requests[i].progress.Begun? {
      f := UploadHasFid(c, before, i);
    } else {
      f := AssignedFid(e.response);
    }
  }

  /** In every history, whatever requests share a user, time and file name: each reply with an upload URL is a
      success, and its two links are of one fid exactly when the last fid assigned to its triple before the
      reply was its own. */
  lemma RepliesAgreeIff(c: Storage, es: seq<Event>, i: nat) returns (f: string, n: nat)
    requires i < |After(c, es).requests|
    requires var p := After(c, es).requests[i].progress; p.Replied? && p.upload != ""
    ensures var r := After(c, es).requests[i];
            && r.Succeeded() && f != "" && r.progress.upload == UploadUrl(c, f, r.Key())
            && RepliesAt(c, es, i, n)
            && (LinksOneFid(c, r) <==> LatestFid(c, es[..n], r, f))
  {
    var g;
    f, g, n := ReplyIsHistory(c, es, i);
    var r := After(c, es).requests[i];
    LinksOneIff(c, r, f, g);
    FidsAreHistory(c, es[..n], r, f);
    FidsAreHistory(c, es[..n], r, g);
  }

  lemma UrlsNonempty(c: Storage, f: string, g: string, objectName: string)
    ensures UploadUrl(c, f, objectName) != "" && DownloadUrl(c, g) != ""
  {
    hide BaseUrl;
    assert |DownloadUrl(c, f)| <= |UploadUrl(c, f, objectName)|;
  }

  lemma LinksOneIff(c: Storage, r: Request, f: string, g: string)
    requires Links(c, r, f, g)
    ensures r.Succeeded() && (LinksOneFid(c, r) <==> f == g)
  {
    UrlsNonempty(c, f, g, r.Key());
    hide UploadUrl, DownloadUrl;
    if LinksOneFid(c, r) {
      var fid :| r.progress.upload == UploadUrl(c, fid, r.Key()) && r.progress.download == DownloadUrl(c, fid);
      UrlsInjective(c, fid, f, r.Key());
      UrlsInjective(c, fid, g, r.Key());
    }
  }

  lemma SameTripleSameFid(c: Storage, es: seq<Event>, r: Request, r': Request, fid: string)
    requires r.SameTriple(r') && LatestFid(c, es, r, fid)
    ensures LatestFid(c, es, r', fid)
  {
    hide After, AssignedFid;
    var j: nat :| Assigns(c, es, j, r, fid) && forall k: nat, g :: j < k < |es| ==> !Assigns(c, es, k, r, g);
    assert Assigns(c, es, j, r', fid);
    forall k: nat, g | j < k < |es| ensures !Assigns(c, es, k, r', g) {
      assert !Assigns(c, es, k, r, g);
    }
  }

  /** Upload link of the fid `f`, download link of the fid `g`. */
  ghost predicate Links(c: Storage, r: Request, f: string, g: string)
  {
    && r.progress.Replied? && f != "" && g != ""
    && r.progress.upload == UploadUrl(c, f, r.Key()) && r.progress.download == DownloadUrl(c, g)
  }

  lemma RepliesAtLater(c: Storage, before: seq<Event>, e: Event, i: nat, n: nat)
    requires RepliesAt(c, before, i, n)
    ensures RepliesAt(c, before + [e], i, n)
  {
    assert (before + [e])[..n] == before[..n];
  }

  /** The upload link is of the request's own fid, the download link of the one assigned last. */
  lemma {:induction false} ReplyIsHistory(c: Storage, es: seq<Event>, i: nat) returns (f: string, g: string, n: nat)
    requires i < |After(c, es).requests|
    requires var p := After(c, es).requests[i].progress; p.Replied? && p.upload != ""
    ensures var r := After(c, es).requests[i];
            Links(c, r, f, g) && RepliesAt(c, es, i, n) && LatestFid(c, es[..n], r, g)
  {
    var before, e := es[..|es| - 1], es[|es| - 1];
    var s := After(c, before);
    assert es[..|before|] == before && es == before + [e];
    StepReplied(c, s, e, i);
    hide After, Apply, Links, LatestFid;
    if s.requests[i].progress.Replied? {
      f, g, n := ReplyIsHistory(c, before, i);
      assert before[..n] == es[..n];
      RepliesAtLater(c, before, e, i, n);
    } else {
      f, g := JustReplied(c, before, i);
      n := |before|;
    }
  }

  lemma StepReplied(c: Storage, s: State, e: Event, i: nat)
    requires i < |Apply(c, s, e).requests| && Apply(c, s, e).requests[i].progress.Replied?
    ensures i < |s.requests|
    ensures var r, r' := s.requests[i], Apply(c, s, e).requests[i];
            if r.progress.Replied? then r' == r
            else e == Link(i) && r.progress.Assigned? && r'.progress.upload == r.progress.upload
  {
    hide AssignedFid, UploadUrl, Linked;
  }

  lemma JustReplied(c: Storage, es: seq<Event>, i: nat) returns (f: string, g: string)
    requires i < |After(c, es).requests|
    requires var p := After(c, es).requests[i].progress; p.Assigned? && p.upload != ""
    ensures var r := Apply(c, After(c, es), Link(i)).requests[i]; Links(c, r, f, g) && LatestFid(c, es, r, g)
  {
    var s := After(c, es);
    f := UploadHasFid(c, es, i);
    g := s.fids[s.requests[i].Key()];
    FidsAreHistory(c, es, s.requests[i], g);
    hide After, LatestFid, UploadUrl, DownloadUrl, ObjectKey;
    SameTripleSameFid(c, es, s.requests[i], Apply(c, s, Link(i)).requests[i], g);
  }

  // Which requests succeed.

  /** Event `j` is the answer of the master to request `i`. */
  ghost predicate AnswersAt(c: Storage, es: seq<Event>, i: nat, j: nat)
  {
    && j < |es| && es[j].Assign? && es[j].i == i
    && i < |After(c, es[..j]).requests| && After(c, es[..j]).requests[i].progress.Begun?
  }

  lemma StepUpload(c: Storage, s: State, e: Event, i: nat)
    requires i < |Apply(c, s, e).requests| && !Apply(c, s, e).requests[i].progress.Begun?
    ensures i < |s.requests|
    ensures var r, r' := s.requests[i], Apply(c, s, e).requests[i];
            && r'.Key() == r.Key()
            && if r.progress.Begun? then
                 && e.Assign? && e.i == i
                 && var fid := AssignedFid(e.response);
                    r'.progress.upload == if fid == "" then "" else UploadUrl(c, fid, r.Key())
               else r'.progress.upload == r.progress.upload
  {
    hide AssignedFid, ObjectKey, UploadUrl, Linked;
  }

  lemma {:induction false} UploadIsHistory(c: Storage, es: seq<Event>, i: nat) returns (j: nat)
    requires i < |After(c, es).requests| && !After(c, es).requests[i].progress.Begun?
    ensures AnswersAt(c, es, i, j)
    ensures var r, fid := After(c, es).requests[i], AssignedFid(es[j].response);
            r.progress.upload == if fid == "" then "" else UploadUrl(c, fid, r.Key())
  {
    var n := |es| - 1;
    var before, e := es[..n], es[n];
    var s := After(c, before);
    StepUpload(c, s, e, i);
    hide After, Apply, AssignedFid, ObjectKey, UploadUrl;
    if !s.requests[i].progress.Begun? {
      j := UploadIsHistory(c, before, i);
      assert es[..j] == before[..j];
    } else {
      j := n;
    }
  }

  /** A request can be made and answered at any time, whatever the others are at: when nothing comes in between,
      it gets the two links of the fid in the answer, and without one no upload link and no new entry. */
  lemma RequestCanFinish(c: Storage, es: seq<Event>, uid: int, time: int, file: string, response: string)
    ensures var s, i := After(c, es), |After(c, es).requests|;
            var t := After(c, es + [Begin(uid, time, file)] + [Assign(i, response)] + [Link(i)]);
            var fid, key := AssignedFid(response), ObjectKey(uid, time, file);
            && |t.requests| == i + 1 && t.requests[..i] == s.requests
            && t.fids == (if fid == "" then s.fids else s.fids[key := fid])
            && t.requests[i] == Request(uid, time, file, if fid == "" then Replied("", Linked(c, s.fids, key))
                                                         else Replied(UploadUrl(c, fid, key), DownloadUrl(c, fid)))
  {
    var begin, i := Begin(uid, time, file), |After(c, es).requests|;
    AfterThen(c, es, begin);
    AfterThen(c, es + [begin], Assign(i, response));
    AfterThen(c, es + [begin] + [Assign(i, response)], Link(i));
    hide After, AssignedFid, ObjectKey, UploadUrl, DownloadUrl;
  }

  /** The steps of one request do not wait for those of another. */
  lemma RequestGoesOn(c: Storage, es: seq<Event>, i: nat, response: string)
    requires i < |After(c, es).requests|
    ensures After(c, es).requests[i].progress.Begun? ==>
              After(c, es + [Assign(i, response)]).requests[i].progress.Assigned?
    ensures After(c, es).requests[i].progress.Assigned? ==>
              After(c, es + [Link(i)]).requests[i].progress.Replied?
  {
    AfterThen(c, es, Assign(i, response));
    AfterThen(c, es, Link(i));
    hide After, AssignedFid, ObjectKey, UploadUrl, DownloadUrl;
  }

  /** In every history a request succeeds exactly when the master's answer to it held a fid: two links, or an
      error. */
  lemma SucceedsIff(c: Storage, es: seq<Event>, i: nat) returns (j: nat)
    requires i < |After(c, es).requests| && After(c, es).requests[i].progress.Replied?
    ensures AnswersAt(c, es, i, j)
    ensures After(c, es).requests[i].Succeeded() <==> AssignedFid(es[j].response) != ""
  {
    j := UploadIsHistory(c, es, i);
    var r, fid := After(c, es).requests[i], AssignedFid(es[j].response);
    if fid != "" {
      UrlsNonempty(c, fid, fid, r.Key());
      var f, g, n := ReplyIsHistory(c, es, i);
      UrlsNonempty(c, f, g, r.Key());
    }
  }

  /** So a request that the master answers with nothing, or with an object without a fid, gets no upload URL,
      and is told of an error. */
  lemma NoFidFails(c: Storage, es: seq<Event>, i: nat)
    requires i < |After(c, es).requests| && !After(c, es).requests[i].progress.Begun?
    requires forall j :: 0 <= j < |es| && es[j].Assign? && es[j].i == i ==> NoFid(es[j].response)
    ensures After(c, es).requests[i].progress.upload == "" && !After(c, es).requests[i].Succeeded()
  {
    var j := UploadIsHistory(c, es, i);
    NoFidIsAssigned(es[j].response);
  }

  /** The download link of a triple is that of the fid assigned to it last, and empty while none was. */
  lemma LinkedIsHistory(c: Storage, es: seq<Event>, r: Request)
    ensures Linked(c, After(c, es).fids, r.Key()) != "" <==> exists fid :: LatestFid(c, es, r, fid)
    ensures forall fid :: LatestFid(c, es, r, fid) ==>
              Linked(c, After(c, es).fids, r.Key()) == DownloadUrl(c, fid)
  {
    hide After, LatestFid, DownloadUrl, ObjectKey;
    var fids, key := After(c, es).fids, r.Key();
    forall fid ensures (key in fids && fids[key] == fid) <==> LatestFid(c, es, r, fid)
      ensures LatestFid(c, es, r, fid) ==> fid != "" && DownloadUrl(c, fid) != ""
    {
      FidsAreHistory(c, es, r, fid);
      LatestIsNonempty(c, es, r, fid);
      UrlsNonempty(c, fid, fid, key);
    }
    if key in fids {
      assert LatestFid(c, es, r, fids[key]);
    }
  }

  lemma LatestIsNonempty(c: Storage, es: seq<Event>, r: Request, fid: string)
    ensures LatestFid(c, es, r, fid) ==> fid != ""
  {
  }

  /** A triple whose answers all lack a fid has no entry in the map. */
  lemma NoFidNoEntry(c: Storage, es: seq<Event>, r: Request)
    requires forall j :: 0 <= j < |es| && es[j].Assign? ==>
               var requests := After(c, es[..j]).requests;
               es[j].i < |requests| && requests[es[j].i].SameTriple(r) ==> NoFid(es[j].response)
    ensures r.Key() !in After(c, es).fids
  {
    var fids, key := After(c, es).fids, r.Key();
    if key in fids {
      FidsAreHistory(c, es, r, fids[key]);
      var j: nat :| Assigns(c, es, j, r, fids[key]);
      NoFidIsAssigned(es[j].response);
    }
  }

  /** The links and keys as they are printed. */
  lemma PrintedLinks()
    ensures ObjectKey(7, 5, "a.png") == "7" + "/" + "5" + "_" + "a.png"
    ensures var e, url := Endpoint("http", "127.0.0.1", 8080), "http://127.0.0.1:8080";
            var full, plain := Storage(e, "im", "ak", "sk"), Storage(e, "im", "", "");
            && DownloadUrl(plain, "3,01") == url + "/" + "3,01" + "?collection=" + "im"
            && UploadUrl(plain, "3,01", "o") == url + "/" + "3,01" + "?collection=" + "im" + "&filename=" + "o"
            && UploadUrl(full, "3,01", "o") == url + "/" + "3,01" + "?collection=" + "im" + "&filename=" + "o"
                                               + "&accessKey=" + "ak" + "&secretKey=" + "sk"
  {
    ShippedEndpoint();
    assert Digits(7) == "7" && Digits(5) == "5";
    hide BaseUrl, Digits;
  }

  /** Two overlapping requests of the same triple that are assigned different fids: the first one's reply
      offers one fid for the upload and the other for the download. */
  lemma SameTripleMixesFids(c: Storage, uid: int, time: int, file: string, f: string, g: string)
    returns (es: seq<Event>, r: Request)
    requires '"' !in f && '"' !in g && f != "" && |f| == |g| && f != g
    ensures es == [Begin(uid, time, file), Begin(uid, time, file), Assign(0, Print([Field("fid", Text(f))])),
                   Assign(1, Print([Field("fid", Text(g))])), Link(0)]
    ensures After(c, es).requests != [] && r == After(c, es).requests[0] && r.Succeeded()
    ensures r.progress == Replied(UploadUrl(c, f, ObjectKey(uid, time, file)), DownloadUrl(c, g))
    ensures !(r.progress.download <= r.progress.upload)
  {
    hide After, Apply, Print, AssignedFid, UploadUrl, DownloadUrl, ObjectKey;
    var begin, key := Begin(uid, time, file), ObjectKey(uid, time, file);
    var a, b := Assign(0, Print([Field("fid", Text(f))])), Assign(1, Print([Field("fid", Text(g))]));
    es := [begin, begin] + [a] + [b] + [Link(0)];
    var s2 := TwoBegun(c, uid, time, file);
    AfterThen(c, [begin, begin], a);
    AfterThen(c, [begin, begin] + [a], b);
    AfterThen(c, [begin, begin] + [a] + [b], Link(0));
    FidIsRead([Field("fid", Text(f))], 0, f);
    FidIsRead([Field("fid", Text(g))], 0, g);
    LaterFidWins(c, s2, a.response, b.response);
    LinksDiffer(c, f, g, key);
    r := After(c, es).requests[0];
  }

  lemma LaterFidWins(c: Storage, s: State, first: string, second: string)
    requires |s.requests| == 2 && s.requests[0] == s.requests[1] && s.requests[0].progress.Begun?
    requires AssignedFid(first) != "" && AssignedFid(second) != ""
    ensures var s' := Apply(c, Apply(c, Apply(c, s, Assign(0, first)), Assign(1, second)), Link(0));
            && s'.requests != [] && s'.requests[0].progress.Replied?
            && s'.requests[0].progress.upload == UploadUrl(c, AssignedFid(first), s.requests[0].Key())
            && s'.requests[0].progress.download == DownloadUrl(c, AssignedFid(second))
  {
    hide AssignedFid, UploadUrl, DownloadUrl, ObjectKey;
  }

  lemma TwoBegun(c: Storage, uid: int, time: int, file: string) returns (s: State)
    ensures s == State(map[], [Request(uid, time, file, Begun), Request(uid, time, file, Begun)])
    ensures After(c, [Begin(uid, time, file), Begin(uid, time, file)]) == s
  {
    var begin, r := Begin(uid, time, file), Request(uid, time, file, Begun);
    s := State(map[], [r, r]);
    AfterThen(c, [], begin);
    AfterThen(c, [begin], begin);
    assert [] + [begin] == [begin] && [begin] + [begin] == [begin, begin];
    assert [] + [r] == [r] && [r] + [r] == [r, r];
  }

  lemma LinksDiffer(c: Storage, f: string, g: string, objectName: string)
    requires |f| == |g| && f != g
    ensures DownloadUrl(c, g) != "" && UploadUrl(c, f, objectName) != ""
    ensures !(DownloadUrl(c, g) <= UploadUrl(c, f, objectName))
  {
    hide BaseUrl;
    var n := |BaseUrl(c.public)| + 1;
    assert DownloadUrl(c, g)[n..n + |g|] == g && UploadUrl(c, f, objectName)[n..n + |f|] == f;
  }

  /** The program only extracts "fid", which is read back from every answer that is a flat object with distinct
      keys, whatever its other fields hold. */
  lemma FidIsRead(fields: seq<Field>, i: nat, f: string)
    requires AllPlain(fields) && i < |fields| && fields[i] == Field("fid", Text(f))
    requires forall j, k :: 0 <= j < k < |fields| ==> fields[j].key != fields[k].key
    ensures AssignedFid(Print(fields)) == f
  {
    assert Searchable("fid");
    hide ExtractJsonValue, PrintRest, Searchable;
    EveryFieldIsRead(fields, i);
  }

  lemma DownloadIsPrefix(c: Storage, fid: string, objectName: string)
    ensures DownloadUrl(c, fid) <= UploadUrl(c, fid, objectName)
  {
  }
}
