/** The download of the text editor: the blank check and the `.txt` file name. */
module TextEditor {
  import opened Options
  import opened Strings

  /** `filename.endsWith('.txt') ? filename : `${filename}.txt``. */
  function TxtFilename(filename: string): (name: string)
    ensures EndsWith(name, ".txt")
    ensures StartsWith(name, filename)
    ensures EndsWith(filename, ".txt") ==> name == filename
    ensures !EndsWith(filename, ".txt") ==> name == filename + ".txt"
  {
    if EndsWith(filename, ".txt") then filename else filename + ".txt"
  }

  /** Naming a file that already has the suffix changes nothing. */
  lemma TxtFilenameIdempotent(filename: string)
    ensures TxtFilename(TxtFilename(filename)) == TxtFilename(filename)
  {
  }

  /** The suffix test is case-sensitive: an upper-case `.TXT` still gets `.txt` appended. */
  lemma TxtFilenameCaseSensitive()
    ensures TxtFilename("a.TXT") == "a.TXT.txt"
  {
    assert !EndsWith("a.TXT", ".txt") by {
      assert "a.TXT"[1..] != ".txt" by {
        assert "a.TXT"[1..][1] == 'T';
      }
    }
  }

  /**
   * `handleDownload`: the name of the file downloaded with the text, or
   * `None` when the text is empty after trimming and the alert is shown.
   */
  function DownloadName(text: string, filename: string): (r: Option<string>)
    ensures r.None? <==> IsBlank(text)
    ensures r.Some? ==> EndsWith(r.value, ".txt")
    ensures r.Some? ==> r.value == TxtFilename(filename)
  {
    TrimEmptyIffBlank(text);
    if Trim(text) == [] then None else Some(TxtFilename(filename))
  }
}
