/**
 * The upload tab: accepting an image for text extraction, turning the
 * extracted text into a save request, and the state after a save.
 */
module UploadTab {
  import opened Wrappers
  import opened Schema
  import opened JsString
  import AppContext

  /** `type.startsWith("image/")`. */
  predicate IsImageType(mime: string) {
    |mime| >= 6 && mime[..6] == "image/"
  }

  /** `text.split('\n')[0]`: everything before the first line feed. */
  function FirstLine(text: string): (line: string)
    ensures |line| <= |text| && line == text[..|line|]
    ensures '\n' !in line
    ensures |line| < |text| ==> text[|line|] == '\n'
  {
    if text == [] || text[0] == '\n' then []
    else [text[0]] + FirstLine(text[1..])
  }

  /** `line.slice(0, 50) || "Untitled Note"`. */
  function DeriveTitle(text: string): string {
    var line := FirstLine(text);
    var cut := if |line| <= 50 then line else line[..50];
    if cut == [] then "Untitled Note" else cut
  }

  /**
   * The title is "Untitled Note" when the text is empty or starts with a
   * line feed; otherwise it is the start of the first line, all of it when
   * the line is at most fifty characters and its first fifty otherwise.
   */
  lemma DeriveTitleCases(text: string)
    ensures var title := DeriveTitle(text);
      && (text == [] || text[0] == '\n' ==> title == "Untitled Note")
      && (text != [] && text[0] != '\n' ==>
            && 1 <= |title| <= 50
            && title == text[..|title|]
            && '\n' !in title
            && (|title| < 50 ==> |title| == |text| || text[|title|] == '\n'))
  {
    var line := FirstLine(text);
    if text != [] && text[0] != '\n' {
      assert |line| >= 1;
      var title := DeriveTitle(text);
      assert title == line[..if |line| <= 50 then |line| else 50];
      assert forall i :: 0 <= i < |title| ==> title[i] == line[i];
    }
  }

  /**
   * A first line of nothing but whitespace is not empty, so it is not
   * replaced by "Untitled Note": the title is that whitespace, cut to fifty.
   */
  lemma BlankFirstLineKept(text: string)
    requires FirstLine(text) != [] && IsBlank(FirstLine(text))
    ensures var line := FirstLine(text);
      && DeriveTitle(text) == (if |line| <= 50 then line else line[..50])
      && DeriveTitle(text) != "Untitled Note"
      && DeriveTitle(text) != [] && IsBlank(DeriveTitle(text))
  {
    var line := FirstLine(text);
    var title := DeriveTitle(text);
    assert title == (if |line| <= 50 then line else line[..50]);
    assert forall i :: 0 <= i < |title| ==> title[i] == line[i];
    assert !IsWhitespace('U');
    assert "Untitled Note"[0] == 'U';
  }

  /** The record a save sends to the server. */
  datatype SaveRequest = SaveRequest(title: string, content: string, style: string, extractedText: string)

  /**
   * `handleSaveNote`: no request for empty or whitespace-only text;
   * otherwise the derived title, the whole text as content and as
   * extracted text, and the default style from the settings.
   */
  function SaveRequestFor(text: string, settings: AppContext.Settings): (r: Option<SaveRequest>)
    ensures r.None? <==> IsBlank(text)
    ensures r.Some? ==>
      && r.value.content == text && r.value.extractedText == text
      && r.value.style == AppContext.StyleName(settings.defaultNoteStyle)
      && r.value.title == DeriveTitle(text)
  {
    TrimEmptyIffBlank(text);
    if Trim(text) == [] then None
    else Some(SaveRequest(DeriveTitle(text), text, AppContext.StyleName(settings.defaultNoteStyle), text))
  }

  /** Text worth saving always yields a title of one to fifty characters, or the placeholder. */
  lemma SavedTitleShape(text: string, settings: AppContext.Settings)
    requires !IsBlank(text)
    ensures var r := SaveRequestFor(text, settings);
      r.Some? && (r.value.title == "Untitled Note" || 1 <= |r.value.title| <= 50)
  {
    DeriveTitleCases(text);
  }

  class Upload {
    var extractedText: string
    var showExtracted: bool

    /** The state the tab mounts with. */
    constructor ()
      ensures extractedText == "" && !showExtracted
    {
      extractedText := "";
      showExtracted := false;
    }

    /**
     * `handleFile`: anything but an image is refused before extraction
     * starts; for an image, `ocr` is the extraction's outcome (`None` when
     * it failed), and a success shows the text.
     */
    method HandleFile(mime: string, ocr: Option<string>) returns (extractionStarted: bool)
      modifies this
      ensures extractionStarted <==> IsImageType(mime)
      ensures extractionStarted && ocr.Some? ==> extractedText == ocr.value && showExtracted
      ensures !(extractionStarted && ocr.Some?) ==>
        extractedText == old(extractedText) && showExtracted == old(showExtracted)
    {
      if !IsImageType(mime) {
        return false;
      }
      extractionStarted := true;
      if ocr.Some? {
        extractedText := ocr.value;
        showExtracted := true;
      }
    }

    /** A save goes through: the note joins the list in the app state, and the text and preview are cleared. */
    method OnSaveSuccess(app: AppContext.AppState, note: Note) returns (next: AppContext.AppState)
      modifies this
      ensures next == AppContext.Reduce(app, AppContext.AddNote(note))
      ensures next.notes == [note] + app.notes
      ensures extractedText == "" && !showExtracted
    {
      next := AppContext.Reduce(app, AppContext.AddNote(note));
      extractedText := "";
      showExtracted := false;
    }
  }
}
