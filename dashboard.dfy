/** The dashboard's breadcrumb title: `toTitle` turns a route slug back into words. */
module Dashboard {
  import opened Wrappers
  import opened Text
  import opened CommandBase

  /** `.replace(/-/g, ' ')` */
  function HyphensToSpaces(s: string): (r: string)
    ensures |r| == |s|
    ensures forall i :: 0 <= i < |r| ==> r[i] != '-'
    ensures forall i :: 0 <= i < |s| && s[i] != '-' ==> r[i] == s[i]
    ensures forall i :: 0 <= i < |s| && s[i] == '-' ==> r[i] == ' '
  {
    seq(|s|, i requires 0 <= i < |s| => if s[i] == '-' then ' ' else s[i])
  }

  /** A match of `\b\w` at `i`: a word character at the start or after a non-word one. */
  predicate StartsWord(s: string, i: int)
    requires 0 <= i < |s|
  {
    IsWordChar(s[i]) && (i == 0 || !IsWordChar(s[i - 1]))
  }

  /** `.replace(/\b\w/g, c => c.toUpperCase())`; the matches are found on the unchanged text.
      Only the case of a word's first character changes. */
  function CapitaliseWords(s: string): (r: string)
    ensures |r| == |s|
    ensures forall i :: 0 <= i < |s| ==> ToLowerChar(r[i]) == ToLowerChar(s[i])
    ensures forall i :: 0 <= i < |s| && StartsWord(s, i) ==> !IsLower(r[i])
    ensures forall i :: 0 <= i < |s| && !StartsWord(s, i) ==> r[i] == s[i]
  {
    seq(|s|, i requires 0 <= i < |s| => if StartsWord(s, i) then ToUpperChar(s[i]) else s[i])
  }

  function ToTitle(s: string): string {
    CapitaliseWords(HyphensToSpaces(s))
  }

  /** `toTitle` keeps the length, leaves no hyphen, upper-cases the first character of every
      word (of `\w` characters) and changes nothing else. */
  lemma ToTitleShape(s: string)
    ensures |ToTitle(s)| == |s|
    ensures forall i :: 0 <= i < |s| ==> ToTitle(s)[i] != '-'
    ensures forall i :: 0 <= i < |s| && s[i] != '-' && !StartsWord(HyphensToSpaces(s), i) ==> ToTitle(s)[i] == s[i]
    ensures forall i :: 0 <= i < |s| && StartsWord(HyphensToSpaces(s), i) ==> ToTitle(s)[i] == ToUpperChar(s[i])
    ensures forall i :: 0 <= i < |s| && s[i] == '-' ==> ToTitle(s)[i] == ' '
  {
    var h := HyphensToSpaces(s);
    forall i | 0 <= i < |s| ensures ToTitle(s)[i] != '-' {
      assert h[i] != '-';
      if StartsWord(h, i) { assert IsWordChar(h[i]); }
    }
  }

  /** The title of a missing route parameter is the empty text. */
  lemma MissingDocumentTitle()
    ensures ToTitle(BreadcrumbText(None)) == ""
  {
  }

  /** `document ?? ""` */
  function BreadcrumbText(document: Option<string>): string {
    match document
    case Some(d) => d
    case None => ""
  }

  /** `toTitle` is idempotent. */
  lemma ToTitleIdempotent(s: string)
    ensures ToTitle(ToTitle(s)) == ToTitle(s)
  {
    var u := ToTitle(s);
    var h := HyphensToSpaces(s);
    ToTitleShape(s);
    assert HyphensToSpaces(u) == u;
    forall i | 0 <= i < |u| ensures IsWordChar(u[i]) <==> IsWordChar(h[i]) {
    }
    forall i | 0 <= i < |u| ensures StartsWord(u, i) <==> StartsWord(h, i) {
    }
    forall i | 0 <= i < |u| ensures CapitaliseWords(u)[i] == u[i] {
    }
  }

  /** For slug characters, lower-casing the title undoes the capitals and leaves the
      hyphens as spaces. */
  lemma LowerOfTitle(t: string)
    requires forall i :: 0 <= i < |t| ==> IsSlugChar(t[i])
    ensures ToLower(ToTitle(t)) == HyphensToSpaces(t)
  {
    var h := HyphensToSpaces(t);
    forall i | 0 <= i < |t| ensures ToLower(ToTitle(t))[i] == h[i] {
      assert IsSlugChar(t[i]);
      assert !IsUpper(h[i]);
    }
  }

  /** Turning the spaces of a slug back into hyphens restores it. */
  lemma {:induction false} SpacesBackToHyphens(t: string)
    requires forall i :: 0 <= i < |t| ==> IsSlugChar(t[i])
    requires NoDoubleHyphen(t)
    ensures ReplaceRuns(HyphensToSpaces(t), Whitespace, '-') == t
    decreases |t|
  {
    if t != [] {
      var h := HyphensToSpaces(t);
      assert h[1..] == HyphensToSpaces(t[1..]);
      assert NoDoubleHyphen(t[1..]) by {
        forall i | 0 <= i < |t[1..]| - 1 ensures t[1..][i] != '-' || t[1..][i + 1] != '-' {
          assert t[1..][i] == t[i + 1] && t[1..][i + 1] == t[i + 2];
        }
      }
      SpacesBackToHyphens(t[1..]);
      assert IsSlugChar(t[0]);
      if t[0] == '-' {
        assert h[0] in Whitespace;
        assert |t| > 1 ==> t[1] != '-' && IsSlugChar(t[1]) && h[1] == t[1] && h[1] !in Whitespace;
        assert DropLeading(h, Whitespace) == h[1..] by {
          assert DropLeading(h, Whitespace) == DropLeading(h[1..], Whitespace);
        }
      } else {
        assert h[0] == t[0] && h[0] !in Whitespace;
      }
    }
  }

  /** The route slug of a title survives the breadcrumb: slugify(toTitle(slugify(s))) is
      slugify(s). */
  lemma SlugTitleSlug(s: string)
    ensures Slugify(ToTitle(Slugify(s))) == Slugify(s)
  {
    var t := Slugify(s);
    SlugifyIsSlug(s);
    LowerOfTitle(t);
    SpacesBackToHyphens(t);
    FinishSlugIdentity(t);
  }
}
