/**
 * What a note card derives from its note: the word count shown under it,
 * the "time ago" label, and the state change after a successful delete.
 */
module NoteCard {
  import opened Schema
  import opened JsString
  import AppContext

  /** The index of the first whitespace character at or after `i`, or `|s|` when there is none. */
  function NextWhitespace(s: string, i: nat): (j: nat)
    requires i <= |s|
    ensures i <= j <= |s|
    ensures forall k :: i <= k < j ==> !IsWhitespace(s[k])
    ensures j < |s| ==> IsWhitespace(s[j])
    decreases |s| - i
  {
    if i == |s| || IsWhitespace(s[i]) then i else NextWhitespace(s, i + 1)
  }

  /** The end of the whitespace run starting at `i`. */
  function WhitespaceRunEnd(s: string, i: nat): (j: nat)
    requires i <= |s|
    ensures i <= j <= |s|
    ensures forall k :: i <= k < j ==> IsWhitespace(s[k])
    ensures j < |s| ==> !IsWhitespace(s[j])
    decreases |s| - i
  {
    if i < |s| && IsWhitespace(s[i]) then WhitespaceRunEnd(s, i + 1) else i
  }

  /**
   * `s.split(/\s+/)`: the pieces between maximal whitespace runs, so a
   * leading or trailing run yields an empty piece and the empty string
   * splits into one empty piece.
   */
  function SplitWhitespace(s: string): (pieces: seq<string>)
    ensures |pieces| >= 1
    ensures forall p :: p in pieces ==> forall k :: 0 <= k < |p| ==> !IsWhitespace(p[k])
    decreases |s|
  {
    var i := NextWhitespace(s, 0);
    if i == |s| then [s]
    else
      var j := WhitespaceRunEnd(s, i);
      assert j > i;
      [s[..i]] + SplitWhitespace(s[j..])
  }

  /** The number of maximal non-whitespace runs in `s`, when the character before `s` was whitespace iff `afterSpace`. */
  function Runs(s: string, afterSpace: bool): nat {
    if s == [] then 0
    else (if afterSpace && !IsWhitespace(s[0]) then 1 else 0) + Runs(s[1..], IsWhitespace(s[0]))
  }

  /** Whether the character at the end of `a` is whitespace, `afterSpace` standing in for an empty `a`. */
  function EndsInSpace(a: string, afterSpace: bool): bool {
    if a == [] then afterSpace else IsWhitespace(a[|a| - 1])
  }

  /** Counting runs over a concatenation counts them over each part, carrying the state across the seam. */
  lemma {:induction false} RunsAppend(a: string, b: string, afterSpace: bool)
    ensures Runs(a + b, afterSpace) == Runs(a, afterSpace) + Runs(b, EndsInSpace(a, afterSpace))
  {
    if a == [] {
      assert a + b == b;
    } else {
      assert (a + b)[1..] == a[1..] + b;
      RunsAppend(a[1..], b, IsWhitespace(a[0]));
    }
  }

  /** A whitespace-only string holds no run. */
  lemma {:induction false} RunsOfBlank(s: string, afterSpace: bool)
    requires IsBlank(s)
    ensures Runs(s, afterSpace) == 0
  {
    if s != [] {
      RunsOfBlank(s[1..], true);
    }
  }

  /** A non-empty string without whitespace is one run, when it follows whitespace. */
  lemma {:induction false} RunsOfWord(w: string, afterSpace: bool)
    requires w != [] && forall k :: 0 <= k < |w| ==> !IsWhitespace(w[k])
    ensures Runs(w, afterSpace) == (if afterSpace then 1 else 0)
  {
    if |w| > 1 {
      RunsOfWord(w[1..], false);
    }
  }

  /** For a string that neither starts nor ends with whitespace, the split yields one piece per run. */
  lemma {:induction false} SplitCountsRuns(t: string)
    requires t != [] && !IsWhitespace(t[0]) && !IsWhitespace(t[|t| - 1])
    ensures |SplitWhitespace(t)| == Runs(t, true)
    decreases |t|
  {
    var i := NextWhitespace(t, 0);
    if i == |t| {
      RunsOfWord(t, true);
    } else {
      var j := WhitespaceRunEnd(t, i);
      var rest := t[j..];
      assert t == t[..i] + (t[i..j] + rest);
      RunsAppend(t[..i], t[i..j] + rest, true);
      RunsOfWord(t[..i], true);
      RunsAppend(t[i..j], rest, false);
      RunsOfBlank(t[i..j], false);
      assert EndsInSpace(t[i..j], false);
      SplitCountsRuns(rest);
    }
  }

  /** `content.trim().split(/\s+/).length`. */
  function WordCount(content: string): (n: nat)
    ensures n >= 1
  {
    |SplitWhitespace(Trim(content))|
  }

  /** Empty or whitespace-only content counts as one word. */
  lemma BlankIsOneWord(content: string)
    requires IsBlank(content)
    ensures WordCount(content) == 1
  {
    TrimEmptyIffBlank(content);
  }

  /** Whitespace around a string adds no run to it. */
  lemma RunsIgnoreOuterBlanks(lead: string, r: string, trail: string)
    requires IsBlank(lead) && IsBlank(trail)
    ensures Runs(lead + r + trail, true) == Runs(r, true)
  {
    RunsAppend(lead, r + trail, true);
    RunsOfBlank(lead, true);
    assert EndsInSpace(lead, true);
    RunsAppend(r, trail, true);
    RunsOfBlank(trail, EndsInSpace(r, true));
    assert lead + r + trail == lead + (r + trail);
  }

  /** Content with a visible character counts one word per maximal run of non-whitespace. */
  lemma WordCountIsRuns(content: string)
    requires !IsBlank(content)
    ensures WordCount(content) == Runs(content, true)
  {
    TrimEmptyIffBlank(content);
    var r := Trim(content);
    SplitCountsRuns(r);
    RunsOfTrim(content);
  }

  /** Trimming removes no run. */
  lemma RunsOfTrim(content: string)
    ensures Runs(content, true) == Runs(Trim(content), true)
  {
    TrimSplitsString(content);
    var t := TrimStart(content);
    var r := TrimEnd(t);
    var lead := content[..|content| - |t|];
    var trail := t[|r|..];
    RunsIgnoreOuterBlanks(lead, r, trail);
  }

  /** How long ago a note was created, in the unit the card shows. */
  datatype Age = Minutes(count: int) | Hours(count: int) | Days(count: int)

  /**
   * The bucket for a creation time and the current time, both in
   * milliseconds: whole minutes below an hour, whole hours below a day,
   * whole days beyond.
   */
  function AgeOf(createdAt: int, now: int): (a: Age)
    ensures var m := (now - createdAt) / 60000;
      && (a.Minutes? <==> m < 60)
      && (a.Hours? <==> 60 <= m < 1440)
      && (a.Days? <==> m >= 1440)
      && (a.Minutes? ==> a.count * 60000 <= now - createdAt < (a.count + 1) * 60000)
      && (a.Hours? ==> 1 <= a.count <= 23 && a.count * 60 <= m < (a.count + 1) * 60)
      && (a.Days? ==> a.count >= 1 && a.count * 1440 <= m < (a.count + 1) * 1440)
  {
    var m := (now - createdAt) / 60000;
    if m < 60 then Minutes(m)
    else if m < 1440 then Hours(m / 60)
    else Days(m / 1440)
  }

  /** `formatTimeAgo`: the count of whole minutes, hours or days elapsed, followed by its unit. */
  function TimeAgoLabel(createdAt: int, now: int): (r: string)
    ensures var m := (now - createdAt) / 60000;
      && (m < 60 ==> r == IntToString(m) + " minutes ago")
      && (60 <= m < 1440 ==> r == IntToString(m / 60) + " hours ago")
      && (1440 <= m ==> r == IntToString(m / 1440) + " days ago")
  {
    match AgeOf(createdAt, now)
    case Minutes(n) => IntToString(n) + " minutes ago"
    case Hours(n) => IntToString(n) + " hours ago"
    case Days(n) => IntToString(n) + " days ago"
  }

  /** After the server confirms a delete, the card dispatches DELETE_NOTE for its own note. */
  function OnDeleteSuccess(s: AppContext.AppState, note: Note): AppContext.AppState {
    AppContext.Reduce(s, AppContext.DeleteNote(note.id))
  }

  /** The card's note, and only notes with its id, leave the list; everything else stays. */
  lemma DeleteSuccessRemovesCard(s: AppContext.AppState, note: Note)
    ensures var r := OnDeleteSuccess(s, note);
      && !AppContext.HasId(r.notes, note.id)
      && (forall n :: n in s.notes && n.id != note.id ==> n in r.notes)
      && r.(notes := s.notes) == s
  {
  }
}
