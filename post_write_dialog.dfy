/**
 * The post-writing form: three text fields (the attachment's folder, its
 * file name and the text body), the normalisation its getters apply, and
 * the `approved` flag the Save and Cancel buttons set before the form
 * closes.
 */
module PostWriteForm {
  import opened JavaLang

  /** blankToNull: null for null or white-space-only input, the trimmed
      input otherwise. */
  function BlankToNull(s: Option<string>): (r: Option<string>)
    ensures r.None? <==> IsNullOrBlank(s)
    ensures r.Some? ==> r.value == Trim(s.value)
  {
    if s.None? || IsBlank(s.value) then None else Some(Trim(s.value))
  }

  /** isBlank and trim disagree on control characters, so blankToNull can
      return an empty string, and applying it a second time can give a
      different answer: "\0" becomes "", and "\0" followed by an
      ideographic space becomes the ideographic space, which is blank. */
  lemma BlankToNullCanKeepEmpty()
    ensures BlankToNull(Some("\U{0000}")) == Some("")
    ensures BlankToNull(Some("\U{0000}\U{3000}")) == Some("\U{3000}")
    ensures BlankToNull(BlankToNull(Some("\U{0000}\U{3000}"))) == None
  {
    assert !IsWhitespace("\U{0000}"[0]);
    assert !IsWhitespace("\U{0000}\U{3000}"[0]);
    assert IsBlank("\U{3000}");
    var s := "\U{0000}\U{3000}";
    assert TrimStart(s[1..]) == 0;
    assert TrimStart(s) == 1;
    assert s[1..] == "\U{3000}";
    assert TrimEnd(s[1..]) == 1;
    assert Trim(s) == "\U{3000}";
  }

  class PostWriteDialog {
    /** The contents of the three text fields. */
    var pathField: string
    var nameField: string
    var contentField: string
    /** Whether the form was closed with Save. */
    var approved: bool
    var disposed: bool

    /** A new form: empty fields, not approved. */
    constructor ()
      ensures pathField == "" && nameField == "" && contentField == ""
      ensures !approved && !disposed
    {
      pathField, nameField, contentField := "", "", "";
      approved, disposed := false, false;
    }

    /** The folder and name the file chooser fills in (the folder field is
        read-only) and the text the user types. */
    method Fill(path: string, name: string, content: string)
      modifies this
      ensures pathField == path && nameField == name && contentField == content
      ensures approved == old(approved) && disposed == old(disposed)
    {
      pathField, nameField, contentField := path, name, content;
    }

    /** Cancel: not approved, and the form closes. */
    method Cancel()
      modifies this
      ensures !approved && disposed
      ensures pathField == old(pathField) && nameField == old(nameField) && contentField == old(contentField)
    {
      approved := false;
      disposed := true;
    }

    /** Save: approved, and the form closes. */
    method Save()
      modifies this
      ensures approved && disposed
      ensures pathField == old(pathField) && nameField == old(nameField) && contentField == old(contentField)
    {
      approved := true;
      disposed := true;
    }

    /** getFilePath: the folder field, null when blank, trimmed otherwise. */
    function FilePath(): (r: Option<string>)
      reads this
      ensures r.None? <==> IsBlank(pathField)
      ensures r.Some? ==> r.value == Trim(pathField)
    {
      BlankToNull(Some(pathField))
    }

    /** getFileName: null whenever the folder is blank, whatever the name
        field holds; otherwise the name field, null when blank, trimmed
        otherwise. */
    function FileName(): (r: Option<string>)
      reads this
      ensures r.Some? ==> FilePath().Some?
      ensures IsBlank(pathField) ==> r.None?
      ensures !IsBlank(pathField) ==> (r.None? <==> IsBlank(nameField))
      ensures r.Some? ==> r.value == Trim(nameField)
    {
      if BlankToNull(Some(pathField)).None? then None else BlankToNull(Some(nameField))
    }

    /** getContent: the text body, null when blank, trimmed otherwise. */
    function Content(): (r: Option<string>)
      reads this
      ensures r.None? <==> IsBlank(contentField)
      ensures r.Some? ==> r.value == Trim(contentField)
    {
      BlankToNull(Some(contentField))
    }
  }
}
