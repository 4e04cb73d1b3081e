/**
 * The client's application state container: one state value and a reducer
 * over a closed set of named actions. Every transition builds a new state
 * from the old one; nothing is mutated.
 */
module AppContext {
  import opened Wrappers
  import opened Schema

  datatype NoteStyle = Cornell | Bullet | Mindmap | Freeform

  /** The string a style is written as in a note record. */
  function StyleName(style: NoteStyle): string {
    match style
    case Cornell => "cornell"
    case Bullet => "bullet"
    case Mindmap => "mindmap"
    case Freeform => "freeform"
  }

  datatype Settings = Settings(defaultNoteStyle: NoteStyle, autoSave: bool)

  /** `Partial<Settings>`: a field that is `None` is absent from the payload. */
  datatype SettingsPatch = SettingsPatch(defaultNoteStyle: Option<NoteStyle>, autoSave: Option<bool>)

  /** `Partial<Note>`: any field of a note, the id and the timestamps included, may be present. */
  datatype NotePatch = NotePatch(
    id: Option<int>,
    title: Option<string>,
    content: Option<string>,
    style: Option<string>,
    imageUrl: Option<Option<string>>,
    extractedText: Option<Option<string>>,
    createdAt: Option<int>,
    updatedAt: Option<int>)

  datatype AppState = AppState(
    currentTab: string,
    notes: seq<Note>,
    chatMessages: seq<ChatMessage>,
    settings: Settings,
    searchQuery: string,
    filterType: string)

  /** The action kinds; `Unrecognized` is a dispatch whose `type` matches no case. */
  datatype Action =
    | SetTab(tab: string)
    | SetNotes(notes: seq<Note>)
    | AddNote(note: Note)
    | UpdateNote(id: int, patch: NotePatch)
    | DeleteNote(id: int)
    | SetChatMessages(messages: seq<ChatMessage>)
    | AddChatMessage(message: ChatMessage)
    | ClearChat
    | UpdateSettings(settings: SettingsPatch)
    | SetSearchQuery(query: string)
    | SetFilterType(filter: string)
    | Unrecognized(kind: string)

  /** The state a session starts in. */
  function InitialState(): (s: AppState)
    ensures s.currentTab == "uploadTab"
    ensures s.notes == [] && s.chatMessages == []
    ensures s.settings.defaultNoteStyle == Freeform && s.settings.autoSave
    ensures s.searchQuery == "" && s.filterType == "all"
  {
    AppState("uploadTab", [], [], Settings(Freeform, true), "", "all")
  }

  /** The object spread `{ ...note, ...patch }`: present fields of the patch win. */
  function MergeNote(n: Note, p: NotePatch): Note {
    Note(
      p.id.GetOr(n.id),
      p.title.GetOr(n.title),
      p.content.GetOr(n.content),
      p.style.GetOr(n.style),
      p.imageUrl.GetOr(n.imageUrl),
      p.extractedText.GetOr(n.extractedText),
      p.createdAt.GetOr(n.createdAt),
      p.updatedAt.GetOr(n.updatedAt))
  }

  /** The object spread `{ ...settings, ...patch }`. */
  function MergeSettings(s: Settings, p: SettingsPatch): Settings {
    Settings(p.defaultNoteStyle.GetOr(s.defaultNoteStyle), p.autoSave.GetOr(s.autoSave))
  }

  /** `notes.map(...)`: each entry carrying `id` is merged with the patch. */
  function ReplaceById(notes: seq<Note>, id: int, p: NotePatch): seq<Note> {
    seq(|notes|, i requires 0 <= i < |notes| => if notes[i].id == id then MergeNote(notes[i], p) else notes[i])
  }

  /** Some entry of `notes` carries `id`. */
  predicate HasId(notes: seq<Note>, id: int) {
    exists i :: 0 <= i < |notes| && notes[i].id == id
  }

  /** `notes.filter(note => note.id !== id)`. */
  function RemoveId(notes: seq<Note>, id: int): (r: seq<Note>)
    ensures forall n :: n in r <==> n in notes && n.id != id
    ensures |r| <= |notes|
    ensures !HasId(r, id)
  {
    if notes == [] then []
    else (if notes[0].id == id then [] else [notes[0]]) + RemoveId(notes[1..], id)
  }

  /** The reducer: the new state for one dispatched action. */
  function Reduce(s: AppState, a: Action): AppState {
    match a
    case SetTab(tab) => s.(currentTab := tab)
    case SetNotes(notes) => s.(notes := notes)
    case AddNote(n) => s.(notes := [n] + s.notes)
    case UpdateNote(id, p) => s.(notes := ReplaceById(s.notes, id, p))
    case DeleteNote(id) => s.(notes := RemoveId(s.notes, id))
    case SetChatMessages(ms) => s.(chatMessages := ms)
    case AddChatMessage(m) => s.(chatMessages := s.chatMessages + [m])
    case ClearChat => s.(chatMessages := [])
    case UpdateSettings(p) => s.(settings := MergeSettings(s.settings, p))
    case SetSearchQuery(q) => s.(searchQuery := q)
    case SetFilterType(f) => s.(filterType := f)
    case Unrecognized(_) => s
  }

  /**
   * Each action touches one field group only: the tab, the notes, the chat,
   * the settings, the search query or the filter.
   */
  lemma ReduceFrame(s: AppState, a: Action)
    ensures var r := Reduce(s, a);
      && (!a.SetTab? ==> r.currentTab == s.currentTab)
      && (!(a.SetNotes? || a.AddNote? || a.UpdateNote? || a.DeleteNote?) ==> r.notes == s.notes)
      && (!(a.SetChatMessages? || a.AddChatMessage? || a.ClearChat?) ==> r.chatMessages == s.chatMessages)
      && (!a.UpdateSettings? ==> r.settings == s.settings)
      && (!a.SetSearchQuery? ==> r.searchQuery == s.searchQuery)
      && (!a.SetFilterType? ==> r.filterType == s.filterType)
  {
  }

  /** SET_TAB accepts any tab name and changes nothing else. */
  lemma SetTabReplacesTab(s: AppState, tab: string)
    ensures Reduce(s, SetTab(tab)) == s.(currentTab := tab)
  {
  }

  /** A state with no entry carrying `id` is left alone by the filter. */
  lemma {:induction false} RemoveAbsentId(notes: seq<Note>, id: int)
    requires !HasId(notes, id)
    ensures RemoveId(notes, id) == notes
  {
    if notes != [] {
      assert !HasId(notes[1..], id) by {
        forall i | 0 <= i < |notes[1..]| ensures notes[1..][i].id != id {
          assert notes[1..][i] == notes[i + 1];
        }
      }
      RemoveAbsentId(notes[1..], id);
      assert notes == [notes[0]] + notes[1..];
    }
  }

  /** Filtering a concatenation filters each part and keeps their order. */
  lemma {:induction false} RemoveIdAppend(a: seq<Note>, b: seq<Note>, id: int)
    ensures RemoveId(a + b, id) == RemoveId(a, id) + RemoveId(b, id)
  {
    if a != [] {
      assert (a + b)[1..] == a[1..] + b;
      RemoveIdAppend(a[1..], b, id);
    } else {
      assert a + b == b;
    }
  }

  /** ADD_NOTE prepends the note and keeps the rest. */
  lemma AddNotePrepends(s: AppState, n: Note)
    ensures var r := Reduce(s, AddNote(n));
      r.notes[0] == n && r.notes[1..] == s.notes && r.(notes := s.notes) == s
  {
  }

  /** ADD_NOTE followed by DELETE_NOTE of the same id restores the notes, when the id was new. */
  lemma AddThenDeleteRestores(s: AppState, n: Note)
    requires !HasId(s.notes, n.id)
    ensures Reduce(Reduce(s, AddNote(n)), DeleteNote(n.id)) == s
  {
    RemoveIdAppend([n], s.notes, n.id);
    RemoveAbsentId(s.notes, n.id);
  }

  /**
   * UPDATE_NOTE keeps the length and the order, merges the patch into the
   * entries carrying the id and leaves every other entry as it was.
   */
  lemma UpdateNoteEntries(s: AppState, id: int, p: NotePatch)
    ensures var r := Reduce(s, UpdateNote(id, p));
      && |r.notes| == |s.notes|
      && (forall i :: 0 <= i < |s.notes| && s.notes[i].id != id ==> r.notes[i] == s.notes[i])
      && (forall i :: 0 <= i < |s.notes| && s.notes[i].id == id ==> r.notes[i] == MergeNote(s.notes[i], p))
      && r.(notes := s.notes) == s
  {
  }

  /** UPDATE_NOTE with an id no entry carries leaves the state unchanged. */
  lemma UpdateAbsentIsNoOp(s: AppState, id: int, p: NotePatch)
    requires !HasId(s.notes, id)
    ensures Reduce(s, UpdateNote(id, p)) == s
  {
    assert ReplaceById(s.notes, id, p) == s.notes;
  }

  /**
   * DELETE_NOTE removes exactly the entries carrying the id, keeps the
   * relative order of the others, and a second delete changes nothing.
   */
  lemma DeleteNoteRemoves(s: AppState, id: int)
    ensures var r := Reduce(s, DeleteNote(id));
      && (forall n :: n in r.notes <==> n in s.notes && n.id != id)
      && (forall a, b :: s.notes == a + b ==> r.notes == RemoveId(a, id) + RemoveId(b, id))
      && Reduce(r, DeleteNote(id)) == r
      && r.(notes := s.notes) == s
  {
    forall a, b | s.notes == a + b ensures RemoveId(s.notes, id) == RemoveId(a, id) + RemoveId(b, id) {
      RemoveIdAppend(a, b, id);
    }
    RemoveAbsentId(RemoveId(s.notes, id), id);
  }

  /** ADD_CHAT_MESSAGE appends; CLEAR_CHAT empties the chat whatever it held. */
  lemma ChatActions(s: AppState, m: ChatMessage)
    ensures Reduce(s, AddChatMessage(m)).chatMessages == s.chatMessages + [m]
    ensures Reduce(s, ClearChat).chatMessages == []
    ensures Reduce(s, ClearChat) == s.(chatMessages := [])
  {
  }

  /** UPDATE_SETTINGS overwrites the fields the payload carries and keeps the others. */
  lemma UpdateSettingsMerges(s: AppState, p: SettingsPatch)
    ensures var r := Reduce(s, UpdateSettings(p)).settings;
      && r.defaultNoteStyle == (if p.defaultNoteStyle.Some? then p.defaultNoteStyle.value else s.settings.defaultNoteStyle)
      && r.autoSave == (if p.autoSave.Some? then p.autoSave.value else s.settings.autoSave)
    ensures Reduce(s, UpdateSettings(SettingsPatch(None, Some(false)))).settings
      == Settings(s.settings.defaultNoteStyle, false)
  {
  }

  /** An unrecognised action type returns the state unchanged. */
  lemma UnrecognizedIsNoOp(s: AppState, kind: string)
    ensures Reduce(s, Unrecognized(kind)) == s
  {
  }
}
