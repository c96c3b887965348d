/** The upload dialog: the external-link form with its validator and error line, and the
    drag-and-drop highlight flag.

    Whether the `URL` constructor accepts a text is not modelled; it arrives as the input
    `parses`. */
module UploadDialog {
  import opened Wrappers
  import opened Text

  const InvalidLinkMessage: string := "Please enter a valid PDF or Markdown file URL"

  /** `isValidUrl`: a text the `URL` constructor accepts whose lower-cased form ends with
      ".pdf" or ".md". A text it rejects yields false instead of an exception. */
  predicate IsValidUrl(url: string, parses: bool) {
    parses && (EndsWith(ToLower(url), ".pdf") || EndsWith(ToLower(url), ".md"))
  }

  /** The extension test ignores case: ".PDF" and ".Md" links are accepted. */
  lemma ExtensionIgnoresCase(prefix: string)
    ensures IsValidUrl(prefix + ".PDF", true)
    ensures IsValidUrl(prefix + ".Md", true)
    ensures IsValidUrl(prefix + ".pdf", true)
  {
    var p := ToLower(prefix + ".PDF");
    assert p[|p| - 4..] == ".pdf";
    var m := ToLower(prefix + ".Md");
    assert m[|m| - 3..] == ".md";
    var q := ToLower(prefix + ".pdf");
    assert q[|q| - 4..] == ".pdf";
  }

  /** A text ending in a suffix ends in the suffix's last character. */
  lemma EndsWithLast(s: string, suffix: string)
    requires suffix != []
    ensures EndsWith(s, suffix) ==> s[|s| - 1] == suffix[|suffix| - 1]
  {
    if |suffix| <= |s| {
      assert s[|s| - |suffix|..][|suffix| - 1] == s[|s| - 1];
    }
  }

  /** The whole text must end in the extension, so a link with a query string or a fragment
      after ".pdf" is rejected, as is every text the `URL` constructor refuses. */
  lemma AcceptedLinksEndInExtension(url: string, parses: bool)
    ensures !parses ==> !IsValidUrl(url, parses)
    ensures IsValidUrl(url, parses) ==> |url| >= 3 && ToLowerChar(url[|url| - 1]) in {'f', 'd'}
    ensures !IsValidUrl(url + "?download=1", parses)
    ensures !IsValidUrl(url + ".pdf#page=2", parses)
  {
    var l := ToLower(url);
    EndsWithLast(l, ".pdf");
    EndsWithLast(l, ".md");
    var a := ToLower(url + "?download=1");
    assert a[|a| - 1] == '1';
    EndsWithLast(a, ".pdf");
    EndsWithLast(a, ".md");
    var b := ToLower(url + ".pdf#page=2");
    assert b[|b| - 1] == '2';
    EndsWithLast(b, ".pdf");
    EndsWithLast(b, ".md");
  }

  /** More generally, a link whose last character is none of 'f', 'F', 'd', 'D' is
      rejected, whatever it appends to a text. A query string or a fragment that itself
      ends in ".pdf" or ".md" does not count here: such a link is accepted. */
  lemma NoExtensionAtEndRejected(url: string, suffix: string, parses: bool)
    requires suffix != [] && ToLowerChar(suffix[|suffix| - 1]) != 'f' && ToLowerChar(suffix[|suffix| - 1]) != 'd'
    ensures !IsValidUrl(url + suffix, parses)
  {
    var l := ToLower(url + suffix);
    assert l[|l| - 1] == ToLowerChar(suffix[|suffix| - 1]);
    EndsWithLast(l, ".pdf");
    EndsWithLast(l, ".md");
  }

  class Dialog {
    var link: string
    /** The error line; "" shows none. */
    var error: string
    var isDragging: bool

    constructor()
      ensures link == "" && error == "" && !isDragging
    {
      link := "";
      error := "";
      isDragging := false;
    }

    method SetLink(value: string)
      modifies this
      ensures link == value && error == old(error) && isDragging == old(isDragging)
    {
      link := value;
    }

    /** `handleLinkSubmit`: clear the error, then either reject the link with the fixed
        message and keep it, or accept it (the link is submitted) and clear the field. */
    method HandleLinkSubmit(parses: bool) returns (submitted: Option<string>)
      modifies this
      ensures isDragging == old(isDragging)
      ensures !IsValidUrl(old(link), parses) ==>
                submitted == None && error == InvalidLinkMessage && link == old(link)
      ensures IsValidUrl(old(link), parses) ==>
                submitted == Some(old(link)) && error == "" && link == ""
    {
      error := "";
      if !IsValidUrl(link, parses) {
        error := InvalidLinkMessage;
        return None;
      }
      submitted := Some(link);
      link := "";
    }

    method DragOver()
      modifies this
      ensures isDragging && link == old(link) && error == old(error)
    {
      isDragging := true;
    }

    method DragLeave()
      modifies this
      ensures !isDragging && link == old(link) && error == old(error)
    {
      isDragging := false;
    }

    /** The dropped files are only handed to `handleFiles`, which logs them. */
    method Drop()
      modifies this
      ensures !isDragging && link == old(link) && error == old(error)
    {
      isDragging := false;
    }
  }

  /** A rejected submission followed by a corrected one leaves no stale error. */
  method ResubmitClearsError(bad: string, good: string, goodParses: bool) returns (error: string, link: string)
    requires IsValidUrl(good, goodParses)
    ensures error == "" && link == ""
  {
    var d := new Dialog();
    d.SetLink(bad);
    var first := d.HandleLinkSubmit(false);
    d.SetLink(good);
    var second := d.HandleLinkSubmit(goodParses);
    error, link := d.error, d.link;
  }
}
