/**
 * The server's upload filter and the `/api/notes` routes: which store call
 * each request makes and which status it answers with. Schema validation is
 * given as its outcome (`None` for a validation error) and `parseInt` of the
 * path parameter as its value (`None` for NaN).
 */
module Routes {
  import opened Wrappers
  import opened Schema
  import opened Storage
  import JsString

  // ------------------------------------------------------------ upload filter

  /** `path` without its trailing '/' characters. */
  function StripTrailingSlashes(path: string): (r: string)
    ensures r <= path
    ensures r == [] || r[|r| - 1] != '/'
  {
    if path != [] && path[|path| - 1] == '/' then StripTrailingSlashes(path[..|path| - 1]) else path
  }

  /** The part of `path` after its last '/'. */
  function LastSegment(path: string): (r: string)
    ensures forall i :: 0 <= i < |r| ==> r[i] != '/'
  {
    if path == [] || path[|path| - 1] == '/' then []
    else LastSegment(path[..|path| - 1]) + [path[|path| - 1]]
  }

  /** The last segment is a suffix of the path, preceded by '/' when it is not all of it. */
  lemma {:induction false} LastSegmentIsSuffix(path: string)
    ensures var r := LastSegment(path);
      |r| <= |path| && r == path[|path| - |r|..]
      && (|r| < |path| ==> path[|path| - |r| - 1] == '/')
  {
    if path != [] && path[|path| - 1] != '/' {
      var init := path[..|path| - 1];
      LastSegmentIsSuffix(init);
      var r0 := LastSegment(init);
      assert LastSegment(path) == r0 + [path[|path| - 1]];
      assert path == init + [path[|path| - 1]];
    }
  }

  /** The index of the last '.' in `s`, if any. */
  function LastDot(s: string): (r: Option<nat>)
    ensures r.Some? ==> r.value < |s| && s[r.value] == '.'
    ensures forall i :: 0 <= i < |s| && s[i] == '.' ==> r.Some? && i <= r.value
  {
    if s == [] then None
    else if s[|s| - 1] == '.' then Some(|s| - 1)
    else LastDot(s[..|s| - 1])
  }

  /**
   * Node's `path.extname`: from the last '.' of the last path segment to its
   * end; empty when the segment has no '.', when its last '.' is its first
   * character, or when it is "..".
   */
  function Extname(path: string): (ext: string)
    ensures ext == [] || ext[0] == '.'
    ensures forall i :: 0 < i < |ext| ==> ext[i] != '.' && ext[i] != '/'
    ensures var p := StripTrailingSlashes(path); |ext| <= |p| && ext == p[|p| - |ext|..]
  {
    var p := StripTrailingSlashes(path);
    var seg := LastSegment(p);
    var dot := LastDot(seg);
    LastSegmentIsSuffix(p);
    if dot.None? || dot.value == 0 || seg == ".." then ""
    else
      var ext := seg[dot.value..];
      FromLastDot(p, seg, dot.value, ext);
      ext
  }

  /** A string's last '.' is past its first character exactly when some '.' is. */
  lemma LastDotPastFirst(s: string)
    ensures (LastDot(s).Some? && LastDot(s).value > 0) <==> exists i :: 0 < i < |s| && s[i] == '.'
  {
    if LastDot(s).Some? && LastDot(s).value > 0 {
      assert s[LastDot(s).value] == '.';
    }
  }

  /**
   * The extension is non-empty exactly when the last segment has a '.' after
   * its first character and is not "..". With Extname's own contract this
   * fixes its value: ".png" for "scan.2024.png", "" for the dot-file ".png".
   */
  lemma ExtnameNonEmptyIff(path: string)
    ensures var seg := LastSegment(StripTrailingSlashes(path));
      Extname(path) != [] <==> (exists i :: 0 < i < |seg| && seg[i] == '.') && seg != ".."
  {
    LastDotPastFirst(LastSegment(StripTrailingSlashes(path)));
  }

  /** The tail of a last segment from its last '.' is a '.'-led, '/'-free suffix of the path. */
  lemma FromLastDot(p: string, seg: string, d: nat, ext: string)
    requires |seg| <= |p| && seg == p[|p| - |seg|..]
    requires forall i :: 0 <= i < |seg| ==> seg[i] != '/'
    requires d < |seg| && seg[d] == '.'
    requires forall i :: 0 <= i < |seg| && seg[i] == '.' ==> i <= d
    requires ext == seg[d..]
    ensures ext[0] == '.'
    ensures forall i :: 0 < i < |ext| ==> ext[i] != '.' && ext[i] != '/'
    ensures |ext| <= |p| && ext == p[|p| - |ext|..]
  {
    forall i | 0 < i < |ext| ensures ext[i] != '.' && ext[i] != '/' {
      assert ext[i] == seg[d + i];
    }
    assert ext == p[|p| - |seg| + d..];
  }

  /** The regular expression `/jpeg|jpg|png|pdf/`, unanchored. */
  predicate MentionsAllowedType(s: string) {
    JsString.Includes(s, "jpeg") || JsString.Includes(s, "jpg")
    || JsString.Includes(s, "png") || JsString.Includes(s, "pdf")
  }

  /**
   * multer's `fileFilter`: both the lowercased extension of the original name
   * and the MIME type (not lowercased) must mention an allowed type.
   */
  predicate FileFilter(originalName: string, mimeType: string) {
    MentionsAllowedType(JsString.ToLower(Extname(originalName))) && MentionsAllowedType(mimeType)
  }

  /** Every allowed type word starts with 'j' or 'p', and takes at least three characters. */
  lemma {:induction false} MentionShape(s: string)
    requires MentionsAllowedType(s)
    ensures |s| >= 3
    ensures 'j' in s || 'p' in s
  {
    var t := if JsString.Includes(s, "jpeg") then "jpeg"
      else if JsString.Includes(s, "jpg") then "jpg"
      else if JsString.Includes(s, "png") then "png"
      else "pdf";
    assert JsString.Includes(s, t);
    var i :| 0 <= i <= |s| && JsString.OccursAt(s, t, i);
    assert s[i] == t[0];
  }

  /** A name without an extension (no '.') is refused whatever its MIME type. */
  lemma FileFilterNeedsExtension(originalName: string, mimeType: string)
    requires FileFilter(originalName, mimeType)
    ensures '.' in originalName
  {
    MentionShape(JsString.ToLower(Extname(originalName)));
    var ext := Extname(originalName);
    var p := StripTrailingSlashes(originalName);
    assert ext[0] == p[|p| - |ext|];
    assert p[|p| - |ext|] == originalName[|p| - |ext|];
  }

  /** A path without '/' is its own last segment. */
  lemma {:induction false} LastSegmentOfPlainName(name: string)
    requires '/' !in name
    ensures LastSegment(name) == name
  {
    if name != [] {
      var init := name[..|name| - 1];
      assert '/' !in init by {
        forall i | 0 <= i < |init| ensures init[i] != '/' {
          assert init[i] == name[i];
        }
      }
      LastSegmentOfPlainName(init);
      assert name == init + [name[|name| - 1]];
    }
  }

  /** The last '.' of `a + "." + b` is the one after `a` when `b` has none. */
  lemma {:induction false} LastDotBeforeDotless(a: string, b: string)
    requires '.' !in b
    ensures LastDot(a + "." + b) == Some(|a|)
  {
    var s := a + "." + b;
    if b == [] {
      assert s[|s| - 1] == '.';
    } else {
      var b' := b[..|b| - 1];
      assert '.' !in b' by {
        forall i | 0 <= i < |b'| ensures b'[i] != '.' {
          assert b'[i] == b[i];
        }
      }
      LastDotBeforeDotless(a, b');
      assert s[..|s| - 1] == a + "." + b';
      assert s[|s| - 1] == b[|b| - 1];
    }
  }

  /**
   * For a file name "stem.ext" whose stem is not empty (and may hold dots,
   * as in "scan.2024.png") the extension is ".ext"; the one exception is "..".
   */
  lemma ExtnameOfFileName(stem: string, ext: string)
    requires stem != [] && '/' !in stem
    requires '.' !in ext && '/' !in ext
    ensures Extname(stem + "." + ext) == if stem == "." && ext == "" then "" else "." + ext
  {
    var name := stem + "." + ext;
    assert '/' !in name by {
      forall i | 0 <= i < |name| ensures name[i] != '/' {
        if i < |stem| { assert name[i] == stem[i]; }
        else if i > |stem| { assert name[i] == ext[i - |stem| - 1]; }
      }
    }
    var p := StripTrailingSlashes(name);
    assert p == name;
    LastSegmentOfPlainName(name);
    var seg := LastSegment(p);
    assert seg == name;
    LastDotBeforeDotless(stem, ext);
    var dot := LastDot(seg);
    assert dot == Some(|stem|);
    if stem == "." && ext == "" {
      assert seg == "..";
    } else {
      assert seg != ".." by {
        if |name| == 2 {
          assert |stem| == 1 && ext == [];
          assert stem == [name[0]];
        }
      }
      assert Extname(name) == seg[|stem|..];
      assert seg[|stem|..] == "." + ext;
    }
  }

  /**
   * Extension and MIME type are tested independently: "stem.ext" passes exactly
   * when ".ext" lowercased and the MIME type both mention an allowed type.
   */
  lemma FileFilterSidesIndependent(stem: string, ext: string, mimeType: string)
    requires stem != [] && '.' !in stem && '/' !in stem
    requires '.' !in ext && '/' !in ext
    ensures FileFilter(stem + "." + ext, mimeType)
      <==> MentionsAllowedType(JsString.ToLower("." + ext)) && MentionsAllowedType(mimeType)
  {
    ExtnameOfFileName(stem, ext);
  }

  /** The extension is matched case-insensitively: lowercasing it never changes the verdict. */
  lemma FileFilterExtensionIgnoresCase(stem: string, ext: string, mimeType: string)
    requires stem != [] && '.' !in stem && '/' !in stem
    requires '.' !in ext && '/' !in ext
    ensures FileFilter(stem + "." + ext, mimeType)
      <==> FileFilter(stem + "." + JsString.ToLower(ext), mimeType)
  {
    var lower := JsString.ToLower(ext);
    assert '.' !in lower && '/' !in lower by {
      forall i | 0 <= i < |lower| ensures lower[i] != '.' && lower[i] != '/' {
        assert lower[i] == JsString.LowerChar(ext[i]);
      }
    }
    FileFilterSidesIndependent(stem, ext, mimeType);
    FileFilterSidesIndependent(stem, lower, mimeType);
    LowerExtensionTwice(ext);
  }

  /** Lowercasing ".ext" after lowercasing `ext` gives the same as lowercasing ".ext" once. */
  lemma LowerExtensionTwice(ext: string)
    ensures JsString.ToLower("." + JsString.ToLower(ext)) == JsString.ToLower("." + ext)
  {
    var a := JsString.ToLower("." + JsString.ToLower(ext));
    var b := JsString.ToLower("." + ext);
    forall i | 0 <= i < |a| ensures a[i] == b[i] {
      if i > 0 {
        assert ("." + JsString.ToLower(ext))[i] == JsString.ToLower(ext)[i - 1];
        assert ("." + ext)[i] == ext[i - 1];
      }
    }
  }

  /** The MIME type is matched as sent, so an upper-case type is refused. */
  lemma FileFilterMimeTypeKeepsCase(originalName: string)
    ensures !FileFilter(originalName, "image/PNG")
  {
    var mime := "image/PNG";
    assert 'j' !in mime && 'p' !in mime;
    if MentionsAllowedType(mime) {
      MentionShape(mime);
    }
  }

  /** The PDF MIME type mentions an allowed type. */
  lemma PdfMimeAllowed()
    ensures MentionsAllowedType("application/pdf")
  {
    var mime := "application/pdf";
    assert mime[12..15] == "pdf";
    assert JsString.OccursAt(mime, "pdf", 12);
  }

  // ------------------------------------------------------------ note routes

  datatype Body = NoteBody(note: Note) | NotesBody(notes: seq<Note>) | MessageBody(message: string)

  datatype Response = Response(status: int, body: Body)

  /** A query-string value: absent, one string, or repeated (an array). */
  datatype QueryParam = Missing | Text(value: string) | Many(values: seq<string>)

  /** The store query a listing request makes. */
  datatype NoteQuery = SearchQuery(query: string) | StyleQuery(style: string) | AllQuery

  /**
   * GET /api/notes: a non-empty string `search` wins over `style`; a
   * non-empty string `style` other than "all" filters by style; otherwise
   * every note is listed.
   */
  function ChooseListing(search: QueryParam, style: QueryParam): (q: NoteQuery)
    ensures q.SearchQuery? <==> search.Text? && search.value != ""
    ensures q.SearchQuery? ==> q.query == search.value
    ensures q.StyleQuery? <==> !q.SearchQuery? && style.Text? && style.value != "" && style.value != "all"
    ensures q.StyleQuery? ==> q.style == style.value
  {
    if search.Text? && search.value != "" then SearchQuery(search.value)
    else if style.Text? && style.value != "" && style.value != "all" then StyleQuery(style.value)
    else AllQuery
  }

  /** The notes a store query returns, before ordering. */
  predicate Selects(query: NoteQuery, n: Note) {
    match query
    case SearchQuery(text) => MatchesQuery(n, text)
    case StyleQuery(style) => n.style == style
    case AllQuery => true
  }

  /** GET /api/notes: 200 with the chosen listing. */
  method ListNotesRoute(store: MemStorage, search: QueryParam, style: QueryParam) returns (resp: Response)
    requires store.Valid()
    ensures resp.status == 200 && resp.body.NotesBody?
    ensures SortedBy(resp.body.notes, NewestFirst)
    ensures forall n :: n in resp.body.notes <==> store.StoredNote(n) && Selects(ChooseListing(search, style), n)
  {
    var notes: seq<Note>;
    match ChooseListing(search, style) {
      case SearchQuery(text) => notes := store.SearchNotes(text);
      case StyleQuery(style) => notes := store.GetNotesByStyle(style);
      case AllQuery => notes := store.GetAllNotes();
    }
    resp := Response(200, NotesBody(notes));
  }

  /** GET /api/notes/:id: 404 when the store holds no such note, else 200 with it. */
  method GetNoteRoute(store: MemStorage, id: Option<int>) returns (resp: Response)
    requires store.Valid()
    ensures resp.status == 404 <==> id.None? || id.value !in store.notes
    ensures resp.status != 404 ==> resp.status == 200 && resp.body == NoteBody(store.notes[id.value])
    ensures resp.status == 404 ==> resp.body == MessageBody("Note not found")
  {
    var note := None;
    if id.Some? {
      note := store.GetNote(id.value);
    }
    if note.None? {
      return Response(404, MessageBody("Note not found"));
    }
    resp := Response(200, NoteBody(note.value));
  }

  /**
   * POST /api/notes: validation comes first; invalid data answers 400 and
   * creates nothing, valid data answers 201 with the created note.
   */
  method PostNoteRoute(store: MemStorage, parsed: Option<InsertNote>, now: int) returns (resp: Response)
    requires store.Valid()
    requires parsed.Some? ==> parsed.value.title.Some? && parsed.value.content.Some?
    modifies store
    ensures store.Valid()
    ensures parsed.None? ==> resp.status == 400 && unchanged(store)
    ensures parsed.Some? ==>
      var data := parsed.value;
      && resp.status == 201
      && resp.body == NoteBody(Note(old(store.currentNoteId), data.title.value, data.content.value,
                                    StyleOrDefault(data.style), OrNull(data.imageUrl), OrNull(data.extractedText),
                                    now, now))
      && store.notes == old(store.notes)[resp.body.note.id := resp.body.note]
      && store.currentNoteId == old(store.currentNoteId) + 1
    ensures store.users == old(store.users) && store.chatMessages == old(store.chatMessages)
    ensures store.currentUserId == old(store.currentUserId) && store.currentChatId == old(store.currentChatId)
  {
    if parsed.None? {
      return Response(400, MessageBody("Invalid note data"));
    }
    var note := store.CreateNote(parsed.value, now);
    resp := Response(201, NoteBody(note));
  }

  /**
   * PUT /api/notes/:id: validation precedes the update, so invalid data
   * answers 400 and leaves the store alone; an id the store does not hold
   * answers 404; otherwise 200 with the updated note.
   */
  method PutNoteRoute(store: MemStorage, id: Option<int>, parsed: Option<InsertNote>, now: int) returns (resp: Response)
    requires store.Valid()
    modifies store
    ensures store.Valid()
    ensures parsed.None? ==> resp.status == 400 && unchanged(store)
    ensures parsed.Some? && (id.None? || id.value !in old(store.notes)) ==>
      resp.status == 404 && store.notes == old(store.notes)
    ensures parsed.Some? && id.Some? && id.value in old(store.notes) ==>
      resp.status == 200 && resp.body == NoteBody(ApplyUpdate(old(store.notes)[id.value], parsed.value, now))
      && store.notes == old(store.notes)[id.value := resp.body.note]
    ensures store.users == old(store.users) && store.chatMessages == old(store.chatMessages)
    ensures store.currentUserId == old(store.currentUserId) && store.currentNoteId == old(store.currentNoteId)
    ensures store.currentChatId == old(store.currentChatId)
  {
    if parsed.None? {
      return Response(400, MessageBody("Invalid note data"));
    }
    var note := None;
    if id.Some? {
      note := store.UpdateNote(id.value, parsed.value, now);
    }
    if note.None? {
      return Response(404, MessageBody("Note not found"));
    }
    resp := Response(200, NoteBody(note.value));
  }

  /** DELETE /api/notes/:id: 404 exactly when the store reports nothing was deleted. */
  method DeleteNoteRoute(store: MemStorage, id: Option<int>) returns (resp: Response)
    requires store.Valid()
    modifies store
    ensures store.Valid()
    ensures resp.status == 404 <==> id.None? || id.value !in old(store.notes)
    ensures resp.status != 404 ==> resp.status == 200 && store.notes == old(store.notes) - {id.value}
    ensures resp.status == 404 ==> store.notes == old(store.notes)
    ensures store.users == old(store.users) && store.chatMessages == old(store.chatMessages)
    ensures store.currentUserId == old(store.currentUserId) && store.currentNoteId == old(store.currentNoteId)
    ensures store.currentChatId == old(store.currentChatId)
  {
    var deleted := false;
    if id.Some? {
      deleted := store.DeleteNote(id.value);
    }
    if !deleted {
      return Response(404, MessageBody("Note not found"));
    }
    resp := Response(200, MessageBody("Note deleted successfully"));
  }
}
