/**
 * The infographic export endpoint (backend/app/api/sessions.py): how the
 * stored image URL is turned into a download, a redirect or an error. The
 * read of a local media file is a function parameter, since the storage
 * has no method to locate it.
 */
module ApiSessions {
  import opened Wrappers
  import opened Strings
  import opened Storage
  import opened Http

  /** The session as the endpoint sees it: its id and its infographic's image URL, if any. */
  datatype SessionView = SessionView(id: int, imageUrl: Option<string>)

  /**
   * What locating and reading a local media file gave: its bytes, no such
   * file, a path the lookup rejected with ValueError (with its message), or
   * another exception, which the endpoint does not catch.
   */
  datatype LocalRead = FileBytes(bytes: string) | FileMissing | PathRejected(message: string) | Unhandled

  /** A 200 SVG attachment or a 307 redirect. */
  datatype Response = SvgAttachment(content: string, filename: string) | Redirect(location: string)

  const DataUrlPrefix := "data:image/svg+xml"

  function AttachmentName(id: int): string {
    "infographic-session-" + IntToString(id) + ".svg"
  }

  /**
   * export_infographic_svg after the session lookup (None when the session
   * is missing or not the caller's).
   */
  function ExportInfographicSvg(session: Option<SessionView>, mediaBaseUrl: string,
                                readLocal: string -> LocalRead): Result<Response, HttpError> {
    if session.None? then Failure(SessionNotFound)
    else if session.value.imageUrl.None? || session.value.imageUrl.value == [] then
      Failure(HttpError(404, "Infographic not found"))
    else
      var url := session.value.imageUrl.value;
      var name := AttachmentName(session.value.id);
      var base := RStripSlash(mediaBaseUrl);
      if base + "/" <= url then
        match readLocal(url[|base| + 1..])
        case FileBytes(b) => Success(SvgAttachment(b, name))
        case FileMissing => Failure(HttpError(404, "Infographic file missing"))
        case PathRejected(m) => Failure(HttpError(500, m))
        case Unhandled => Failure(HttpError(500, "Internal Server Error"))
      else if "http://" <= url || "https://" <= url then Success(Redirect(url))
      else if !(DataUrlPrefix <= url) then Failure(HttpError(409, "Infographic is not an SVG"))
      else
        var idx := Find(url, ",", 0);
        if idx == -1 then Failure(HttpError(500, "Invalid infographic data URL"))
        else Success(SvgAttachment(url[idx + 1..], name))
  }

  /** The two not-found answers. */
  lemma NotFoundCases(session: Option<SessionView>, mediaBaseUrl: string, readLocal: string -> LocalRead)
    ensures session.None? ==> ExportInfographicSvg(session, mediaBaseUrl, readLocal) == Failure(HttpError(404, "Session not found"))
    ensures session.Some? && (session.value.imageUrl.None? || session.value.imageUrl.value == []) ==>
      ExportInfographicSvg(session, mediaBaseUrl, readLocal) == Failure(HttpError(404, "Infographic not found"))
    ensures ExportInfographicSvg(session, mediaBaseUrl, readLocal).Success? ==>
      session.Some? && session.value.imageUrl.Some? && session.value.imageUrl.value != []
  {
  }

  /**
   * A URL under the media base URL (trailing slashes stripped, then one
   * '/') is served from the file named by the rest of the URL, whatever
   * its scheme; the attachment is named after the session.
   */
  lemma LocalUrlServedFromDisk(id: int, mediaBaseUrl: string, rel: string, readLocal: string -> LocalRead)
    ensures var url := RStripSlash(mediaBaseUrl) + "/" + rel;
      ExportInfographicSvg(Some(SessionView(id, Some(url))), mediaBaseUrl, readLocal)
        == match readLocal(rel)
           case FileBytes(b) => Success(SvgAttachment(b, AttachmentName(id)))
           case FileMissing => Failure(HttpError(404, "Infographic file missing"))
           case PathRejected(m) => Failure(HttpError(500, m))
           case Unhandled => Failure(HttpError(500, "Internal Server Error"))
  {
    var base := RStripSlash(mediaBaseUrl);
    var url := base + "/" + rel;
    assert base + "/" <= url;
    assert url[|base| + 1..] == rel;
  }

  /**
   * Every URL the research worker stores for a session (the storage's base
   * URL, '/', the worker's path) takes the local branch and is read back
   * from that path.
   */
  lemma StoredUrlIsLocal(id: int, root: seq<string>, mediaBaseUrl: string, rel: string, readLocal: string -> LocalRead)
    requires NewStorage(root, mediaBaseUrl).SaveBytes(rel).Success?
    ensures var url := NewStorage(root, mediaBaseUrl).SaveBytes(rel).value.url;
      var r := ExportInfographicSvg(Some(SessionView(id, Some(url))), mediaBaseUrl, readLocal);
      r.Success? <==> readLocal(rel).FileBytes?
  {
    LocalUrlServedFromDisk(id, mediaBaseUrl, rel, readLocal);
  }

  /** Any other http(s) URL is answered with a redirect to it. */
  lemma RemoteUrlRedirects(id: int, mediaBaseUrl: string, url: string, readLocal: string -> LocalRead)
    requires "http://" <= url || "https://" <= url
    requires !(RStripSlash(mediaBaseUrl) + "/" <= url)
    ensures ExportInfographicSvg(Some(SessionView(id, Some(url))), mediaBaseUrl, readLocal) == Success(Redirect(url))
  {
  }

  /**
   * A legacy data URL: its body is what follows the first ',', and a data
   * URL without one is an error. Any other non-local, non-http URL is not
   * an SVG.
   */
  lemma DataUrlBody(id: int, mediaBaseUrl: string, url: string, readLocal: string -> LocalRead)
    requires url != [] && !(RStripSlash(mediaBaseUrl) + "/" <= url) && !("http://" <= url) && !("https://" <= url)
    ensures var r := ExportInfographicSvg(Some(SessionView(id, Some(url))), mediaBaseUrl, readLocal);
      && (!(DataUrlPrefix <= url) ==> r == Failure(HttpError(409, "Infographic is not an SVG")))
      && (DataUrlPrefix <= url && ',' !in url ==> r == Failure(HttpError(500, "Invalid infographic data URL")))
      && (DataUrlPrefix <= url && ',' in url ==>
            exists i :: 0 <= i < |url| && url[i] == ',' && ',' !in url[..i]
              && r == Success(SvgAttachment(url[i + 1..], AttachmentName(id))))
  {
    var idx := Find(url, ",", 0);
    if idx != -1 {
      assert url[idx..idx + 1] == ",";
      assert url[idx] == ',';
    }
    if ',' in url {
      var j :| 0 <= j < |url| && url[j] == ',';
      assert HasAt(url, ",", j) by { assert url[j..j + 1] == [url[j]]; }
      forall k | 0 <= k < idx ensures url[k] != ',' {
        if url[k] == ',' { assert url[k..k + 1] == ","; assert HasAt(url, ",", k); }
      }
    }
  }

  /** A data URL is neither an http nor an https URL. */
  lemma NotHttp(url: string)
    requires DataUrlPrefix <= url
    ensures !("http://" <= url) && !("https://" <= url)
  {
    assert url[0] == DataUrlPrefix[0] == 'd';
  }

  /** The first ',' of h + "," + b, when h has none, is the one after h. */
  lemma FirstComma(h: string, b: string)
    requires ',' !in h
    ensures Find(h + "," + b, ",", 0) == |h|
  {
    var url := h + "," + b;
    assert url[|h|..|h| + 1] == ",";
    assert HasAt(url, ",", |h|);
    forall k | 0 <= k < |h| ensures !HasAt(url, ",", k) {
      assert url[k] == h[k];
      assert url[k..k + 1] == [url[k]];
    }
  }

  lemma NoCommaInHeader(header: string)
    requires ',' !in header
    ensures ',' !in DataUrlPrefix + header
  {
    var h := DataUrlPrefix + header;
    assert ',' !in DataUrlPrefix;
    forall k | 0 <= k < |h| ensures h[k] != ',' {
      if k >= |DataUrlPrefix| { assert h[k] == header[k - |DataUrlPrefix|]; }
    }
  }

  /** The data branch: a data URL with a ',' is exported as what follows its first ','. */
  lemma DataBranch(id: int, mediaBaseUrl: string, url: string, readLocal: string -> LocalRead)
    requires DataUrlPrefix <= url && !(RStripSlash(mediaBaseUrl) + "/" <= url)
    requires Find(url, ",", 0) != -1
    ensures ExportInfographicSvg(Some(SessionView(id, Some(url))), mediaBaseUrl, readLocal)
         == Success(SvgAttachment(url[Find(url, ",", 0) + 1..], AttachmentName(id)))
  {
    NotHttp(url);
  }

  /**
   * The data URL round trip: a body wrapped as data:image/svg+xml plus a
   * header without ',' and a ',' is exported as that body.
   */
  lemma DataUrlRoundTrip(id: int, mediaBaseUrl: string, header: string, body: string, readLocal: string -> LocalRead)
    requires ',' !in header
    requires !(RStripSlash(mediaBaseUrl) + "/" <= DataUrlPrefix + header + "," + body)
    ensures ExportInfographicSvg(Some(SessionView(id, Some(DataUrlPrefix + header + "," + body))), mediaBaseUrl, readLocal)
         == Success(SvgAttachment(body, AttachmentName(id)))
  {
    var h := DataUrlPrefix + header;
    var url := h + "," + body;
    assert DataUrlPrefix + header + "," + body == url;
    NoCommaInHeader(header);
    FirstComma(h, body);
    assert DataUrlPrefix <= url by {
      assert url[..|DataUrlPrefix|] == h[..|DataUrlPrefix|];
    }
    DataBranch(id, mediaBaseUrl, url, readLocal);
    assert url[|h| + 1..] == body;
  }

  /**
   * The local lookup as written: LocalMediaStorage has no `resolve`
   * method, so the call raises AttributeError, which `except ValueError`
   * lets through.
   */
  function MissingResolve(rel: string): LocalRead {
    Unhandled
  }

  /** export_infographic_svg as written, with the lookup that always raises. */
  function ExportAsWritten(session: Option<SessionView>, mediaBaseUrl: string): Result<Response, HttpError> {
    ExportInfographicSvg(session, mediaBaseUrl, MissingResolve)
  }

  /**
   * As written, every URL the storage hands out for a session's SVG ends in
   * a 500, whether or not the file is on disk.
   */
  lemma StoredUrlFailsAsWritten(id: int, root: seq<string>, mediaBaseUrl: string, rel: string)
    requires NewStorage(root, mediaBaseUrl).SaveBytes(rel).Success?
    ensures var url := NewStorage(root, mediaBaseUrl).SaveBytes(rel).value.url;
      ExportAsWritten(Some(SessionView(id, Some(url))), mediaBaseUrl) == Failure(HttpError(500, "Internal Server Error"))
  {
    LocalUrlServedFromDisk(id, mediaBaseUrl, rel, MissingResolve);
  }
}
