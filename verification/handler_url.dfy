/**
 Derivation of the widget's handler URL from the installer page's own URL.
 Two variants exist: the production installer rewrites `location.href` with
 the pattern `/index\.html.*$/`, the sample installer rewrites
 `origin + pathname` with `/index\.html$/`. Both substitute `widget.html`
 and rewrite at most once (no `g` flag).
 */
module HandlerUrl {
  import opened Text

  const EntryFile: string := "index.html"
  const WidgetFile: string := "widget.html"

  /** `/index\.html.*$/` matches at `i`: the entry file name occurs there and
      `.*` can run to the end of the input, that is, no line terminator
      follows the name (`$` without the `m` flag is the end of input). */
  predicate MatchesAt(s: string, i: int) {
    OccursAt(EntryFile, s, i) && SingleLine(s[i + |EntryFile|..])
  }

  /** The leftmost position at or after `k` where the pattern matches, as the
      regular-expression engine tries positions left to right. */
  function FirstMatchFrom(s: string, k: nat): (r: Option<nat>)
    requires k <= |s|
    ensures r.Some? ==> k <= r.value && MatchesAt(s, r.value)
    ensures r.Some? ==> forall j :: k <= j < r.value ==> !MatchesAt(s, j)
    ensures r.None? ==> forall j :: k <= j ==> !MatchesAt(s, j)
    decreases |s| - k
  {
    if MatchesAt(s, k) then Some(k)
    else if k + |EntryFile| >= |s| then None
    else FirstMatchFrom(s, k + 1)
  }

  /** `location.href.replace(/index\.html.*$/, "widget.html")`
      (frontend/src/install.js). */
  function DeriveWidgetUrl(href: string): (r: string)
    ensures r == href <==> forall j :: !MatchesAt(href, j)
    ensures r != href ==> EndsWith(r, WidgetFile) && |r| <= |href| + 1
  {
    match FirstMatchFrom(href, 0)
    case None => href
    case Some(i) =>
      var r := href[..i] + WidgetFile;
      assert href[i..i + |EntryFile|][0] == href[i] == 'i';
      assert r[i] == 'w';
      r
  }

  /** On a single-line URL that contains the entry file name, everything from
      its first occurrence to the end (query and fragment included) becomes
      the widget file name. */
  lemma DeriveReplacesFromFirstOccurrence(href: string, i: nat)
    requires SingleLine(href)
    requires OccursAt(EntryFile, href, i)
    requires forall j :: 0 <= j < i ==> !OccursAt(EntryFile, href, j)
    ensures DeriveWidgetUrl(href) == href[..i] + WidgetFile
  {
    assert MatchesAt(href, i);
    var m := FirstMatchFrom(href, 0);
    assert m.Some? && m.value == i;
  }

  /** Without the entry file name the URL is left unchanged. */
  lemma DeriveWithoutEntryFileIsIdentity(href: string)
    requires forall j :: !OccursAt(EntryFile, href, j)
    ensures DeriveWidgetUrl(href) == href
  {
  }

  /** No line terminator follows a match position. */
  lemma SingleLineFromMatch(href: string, i: nat)
    requires MatchesAt(href, i)
    ensures forall q :: i <= q < |href| ==> !IsLineTerminator(href[q])
  {
  }

  /** An occurrence inside the kept prefix was not a match in the input, so a
      line terminator follows it before the rewritten part. */
  lemma NoMatchInKeptPrefix(href: string, i: nat, j: nat)
    requires i <= |href| && MatchesAt(href, i)
    requires forall k :: 0 <= k < i ==> !MatchesAt(href, k)
    requires j + |EntryFile| <= i
    ensures !MatchesAt(href[..i] + WidgetFile, j)
  {
    var r := href[..i] + WidgetFile;
    var n := |EntryFile|;
    if OccursAt(EntryFile, r, j) {
      assert r[j..j + n] == href[j..j + n];
      assert OccursAt(EntryFile, href, j);
      assert !MatchesAt(href, j);
      assert !SingleLine(href[j + n..]);
      var p :| 0 <= p < |href[j + n..]| && IsLineTerminator(href[j + n..][p]);
      var q := j + n + p;
      assert IsLineTerminator(href[q]);
      SingleLineFromMatch(href, i);
      assert r[j + n..][p] == href[q];
    }
  }

  /** An occurrence overlapping the substituted name would contain its `w`
      (or, one place further, read `idget.html`). */
  lemma NoOccurrenceOverWidget(href: string, i: nat, j: nat)
    requires i <= |href|
    requires i < j + |EntryFile|
    ensures !OccursAt(EntryFile, href[..i] + WidgetFile, j)
  {
    var r := href[..i] + WidgetFile;
    var n := |EntryFile|;
    if j <= i && j + n <= |r| {
      assert r[j..j + n][i - j] == r[i] == 'w';
    } else if j == i + 1 {
      assert r[j..j + n][1] == WidgetFile[2];
    }
  }

  /** The rewritten URL offers no further match. */
  lemma NoMatchAfterRewrite(href: string, i: nat)
    requires i <= |href| && MatchesAt(href, i)
    requires forall j :: 0 <= j < i ==> !MatchesAt(href, j)
    ensures forall j :: !MatchesAt(href[..i] + WidgetFile, j)
  {
    forall j | 0 <= j
      ensures !MatchesAt(href[..i] + WidgetFile, j)
    {
      if j + |EntryFile| <= i {
        NoMatchInKeptPrefix(href, i, j);
      } else {
        NoOccurrenceOverWidget(href, i, j);
      }
    }
  }

  /** Deriving the handler URL twice gives the same URL as deriving it once. */
  lemma DeriveIdempotent(href: string)
    ensures DeriveWidgetUrl(DeriveWidgetUrl(href)) == DeriveWidgetUrl(href)
  {
    var m := FirstMatchFrom(href, 0);
    if m.Some? {
      NoMatchAfterRewrite(href, m.value);
    }
  }

  /** `(origin + pathname).replace(/index\.html$/, 'widget.html')`
      (sample/js/script.js): the pattern can match only as a suffix. */
  function ReplaceIndexSuffix(s: string): (r: string)
    ensures EndsWith(s, EntryFile) ==>
              EndsWith(r, WidgetFile) && r[..|r| - |WidgetFile|] == s[..|s| - |EntryFile|]
    ensures !EndsWith(s, EntryFile) ==> r == s
  {
    if EndsWith(s, EntryFile) then s[..|s| - |EntryFile|] + WidgetFile else s
  }

  /** The suffix pattern matches exactly when the string ends in the entry file name. */
  lemma SuffixPatternIsEndsWith(s: string)
    ensures (exists i :: OccursAt(EntryFile, s, i) && i + |EntryFile| == |s|) <==> EndsWith(s, EntryFile)
  {
    if EndsWith(s, EntryFile) {
      assert OccursAt(EntryFile, s, |s| - |EntryFile|);
    }
  }

  /** Rewriting the suffix twice changes nothing the second time. */
  lemma ReplaceIndexSuffixIdempotent(s: string)
    ensures ReplaceIndexSuffix(ReplaceIndexSuffix(s)) == ReplaceIndexSuffix(s)
  {
    var r := ReplaceIndexSuffix(s);
    if EndsWith(s, EntryFile) {
      assert r[|r| - |EntryFile|..][1] == 'd';
      assert !EndsWith(r, EntryFile);
    }
  }

  /** On a single-line URL whose only occurrence of the entry name is its
      suffix (no query, no fragment), the two variants agree. */
  lemma VariantsAgreeOnBarePath(s: string)
    requires SingleLine(s) && EndsWith(s, EntryFile)
    requires forall j :: 0 <= j < |s| - |EntryFile| ==> !OccursAt(EntryFile, s, j)
    ensures DeriveWidgetUrl(s) == ReplaceIndexSuffix(s)
  {
    DeriveReplacesFromFirstOccurrence(s, |s| - |EntryFile|);
  }

  /** A directory that does not itself contain the entry file name, then the
      entry file name, then a query: the rewrite keeps the directory and drops
      the query. No occurrence can straddle the directory and the name,
      because `i` occurs in `index.html` only at its start. */
  lemma DeriveAfterDirectory(dir: string, query: string)
    requires SingleLine(dir) && SingleLine(query)
    requires forall j :: !OccursAt(EntryFile, dir, j)
    ensures DeriveWidgetUrl(dir + EntryFile + query) == dir + WidgetFile
  {
    var href := dir + EntryFile + query;
    assert SingleLine(href) by {
      forall k | 0 <= k < |href|
        ensures !IsLineTerminator(href[k])
      {
        if k < |dir| {
          assert href[k] == dir[k];
        } else if k < |dir| + |EntryFile| {
          assert href[k] == EntryFile[k - |dir|];
        } else {
          assert href[k] == query[k - |dir| - |EntryFile|];
        }
      }
    }
    assert href[|dir|..|dir| + |EntryFile|] == EntryFile;
    forall j | 0 <= j < |dir|
      ensures !OccursAt(EntryFile, href, j)
    {
      if j + |EntryFile| <= |dir| {
        assert href[j..j + |EntryFile|] == dir[j..j + |EntryFile|];
        assert !OccursAt(EntryFile, dir, j);
      } else {
        var k := |dir| - j;
        assert href[j..j + |EntryFile|][k] == href[|dir|] == 'i';
        assert forall m :: 1 <= m < |EntryFile| ==> EntryFile[m] != 'i';
      }
    }
    DeriveReplacesFromFirstOccurrence(href, |dir|);
    assert href[..|dir|] == dir;
  }

  /** The installer page `/app/index.html?x=1` yields handler `/app/widget.html`. */
  lemma DeriveDropsQuery(href: string)
    requires href == "/app/" + EntryFile + "?x=1"
    ensures DeriveWidgetUrl(href) == "/app/" + WidgetFile
  {
    DeriveAfterDirectory("/app/", "?x=1");
  }
}
