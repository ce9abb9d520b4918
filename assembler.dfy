/**
 * The last step of `generate_labels`: the pages joined with newlines and
 * spliced into the template in place of the content of the `a4-pages` div,
 * as `re.sub(r'(<div class="a4-pages">).*?(</div>\s*</body>)', ...)` does for
 * its first match.
 */
module Assembler {
  import opened Wrappers
  import opened Text
  import opened Loader
  import opened Label
  import opened Paginator

  const StartMarker: string := "<div class=\"a4-pages\">"
  const DivClose: string := "</div>"
  const BodyEnd: string := "</body>"

  /** What `\s` matches, restricted to ASCII: space, tab, newline, carriage return, vertical tab, form feed. */
  predicate IsSpace(c: char)
  {
    c == ' ' || c == '\t' || c == '\n' || c == '\r' || c == '\U{000B}' || c == '\U{000C}'
  }

  /** `p` occurs in `s` at index `i`. */
  predicate StartsAt(s: string, p: string, i: nat)
  {
    i <= |s| && HasPrefix(s[i..], p)
  }

  /** The end of the run of whitespace that starts at `i`. */
  function SkipSpaces(s: string, i: nat): (j: nat)
    requires i <= |s|
    ensures i <= j <= |s|
    ensures forall k :: i <= k < j ==> IsSpace(s[k])
    ensures j < |s| ==> !IsSpace(s[j])
    decreases |s| - i
  {
    if i < |s| && IsSpace(s[i]) then SkipSpaces(s, i + 1) else i
  }

  /** `</div>\s*</body>` matches at index `p`. */
  predicate EndsAt(s: string, p: nat)
  {
    StartsAt(s, DivClose, p) && StartsAt(s, BodyEnd, SkipSpaces(s, p + |DivClose|))
  }

  /** `</div>`, then a run of whitespace of any length, then `</body>`, at `p`: the pattern as written. */
  predicate EndPatternAt(s: string, p: nat)
  {
    StartsAt(s, DivClose, p)
    && exists j :: p + |DivClose| <= j <= |s|
         && (forall k :: p + |DivClose| <= k < j ==> IsSpace(s[k]))
         && StartsAt(s, BodyEnd, j)
  }

  /** Skipping all the whitespace loses no match: `\s*` backtracking never helps, as `<` is not a space. */
  lemma EndsAtMeansPattern(s: string, p: nat)
    ensures EndsAt(s, p) <==> EndPatternAt(s, p)
  {
    if EndPatternAt(s, p) {
      var j :| p + |DivClose| <= j <= |s|
        && (forall k :: p + |DivClose| <= k < j ==> IsSpace(s[k]))
        && StartsAt(s, BodyEnd, j);
      var m := SkipSpaces(s, p + |DivClose|);
      assert s[j..][0] == '<';
      assert !IsSpace(s[j]);
    }
  }

  /** The first index at or after `from` where `p` occurs. */
  function FindFrom(s: string, p: string, from: nat): (r: Option<nat>)
    ensures r.Some? ==> (from <= r.value && StartsAt(s, p, r.value)
      && forall i :: from <= i < r.value ==> !StartsAt(s, p, i))
    ensures r.None? ==> forall i :: from <= i ==> !StartsAt(s, p, i)
    decreases |s| - from
  {
    if from > |s| then None
    else if StartsAt(s, p, from) then Some(from)
    else FindFrom(s, p, from + 1)
  }

  /** The first index at or after `from` where `</div>\s*</body>` matches: the lazy `.*?`. */
  function FindEnd(s: string, from: nat): (r: Option<nat>)
    ensures r.Some? ==> (from <= r.value && EndsAt(s, r.value)
      && forall i :: from <= i < r.value ==> !EndsAt(s, i))
    ensures r.None? ==> forall i :: from <= i ==> !EndsAt(s, i)
    decreases |s| - from
  {
    if from > |s| then None
    else if EndsAt(s, from) then Some(from)
    else FindEnd(s, from + 1)
  }

  /** The page markup replaces the region's content, keeping both markers. */
  function Splice(template: string, pagesHtml: string): string
  {
    match FindFrom(template, StartMarker, 0)
    case None => template
    case Some(i) =>
      var open := i + |StartMarker|;
      match FindEnd(template, open)
      case None => template
      case Some(p) => template[..open] + "\n" + pagesHtml + "\n    " + template[p..]
  }

  /** The whole pattern matches with the start marker at `i` and the end part at `p`. */
  predicate PatternMatch(t: string, i: nat, p: nat)
  {
    StartsAt(t, StartMarker, i) && i + |StartMarker| <= p && EndsAt(t, p)
  }

  /** The match the regex engine reports: leftmost start, then the shortest `.*?`. */
  ghost predicate FirstMatch(t: string, i: nat, p: nat)
  {
    && PatternMatch(t, i, p)
    && (forall i': nat, p': nat :: PatternMatch(t, i', p') ==> i <= i')
    && (forall p': nat :: i + |StartMarker| <= p' < p ==> !EndsAt(t, p'))
  }

  /** The match `Splice` finds is the first match. */
  lemma FoundIsFirst(t: string, i: nat, p: nat)
    requires FindFrom(t, StartMarker, 0) == Some(i)
    requires FindEnd(t, i + |StartMarker|) == Some(p)
    ensures FirstMatch(t, i, p)
  {
  }

  /** When `Splice` finds no start marker, or no end after the first one, nothing matches. */
  lemma NotFoundMeansNoMatch(t: string, i': nat, p': nat)
    requires FindFrom(t, StartMarker, 0).None?
      || FindEnd(t, FindFrom(t, StartMarker, 0).value + |StartMarker|).None?
    ensures !PatternMatch(t, i', p')
  {
  }

  /** There is at most one first match. */
  lemma FirstMatchUnique(t: string, i: nat, p: nat, i': nat, p': nat)
    requires FirstMatch(t, i, p) && FirstMatch(t, i', p')
    ensures i == i' && p == p'
  {
    assert i <= i' && i' <= i;
  }

  /**
   * With a match, everything up to and including the start marker is kept,
   * so is everything from the matched `</div>...</body>` on, and what lies
   * between is a newline, the pages, a newline and four spaces. Without one,
   * the template comes back unchanged.
   */
  lemma SpliceSpec(t: string, pagesHtml: string)
    ensures (forall i: nat, p: nat :: !PatternMatch(t, i, p)) ==> Splice(t, pagesHtml) == t
    ensures (exists i: nat, p: nat :: PatternMatch(t, i, p)) ==> exists i: nat, p: nat :: FirstMatch(t, i, p)
    ensures forall i: nat, p: nat :: FirstMatch(t, i, p) ==>
      Splice(t, pagesHtml) == t[..i + |StartMarker|] + "\n" + pagesHtml + "\n    " + t[p..]
  {
    var first := FindFrom(t, StartMarker, 0);
    if first.Some? && FindEnd(t, first.value + |StartMarker|).Some? {
      var i := first.value;
      var p := FindEnd(t, i + |StartMarker|).value;
      FoundIsFirst(t, i, p);
      forall i': nat, p': nat | FirstMatch(t, i', p')
        ensures i' == i && p' == p
      {
        FirstMatchUnique(t, i, p, i', p');
      }
    } else {
      forall i': nat, p': nat
        ensures !PatternMatch(t, i', p')
      {
        NotFoundMeansNoMatch(t, i', p');
      }
    }
  }

  /** `'\n'.join(parts)`. */
  function Join(parts: seq<string>, sep: string): string
  {
    if parts == [] then ""
    else if |parts| == 1 then parts[0]
    else parts[0] + sep + Join(parts[1..], sep)
  }

  /** Joining two non-empty runs of parts is joining each and putting one separator between them. */
  lemma {:induction false} JoinAppend(a: seq<string>, b: seq<string>, sep: string)
    requires a != [] && b != []
    ensures Join(a + b, sep) == Join(a, sep) + sep + Join(b, sep)
  {
    if |a| == 1 {
      assert (a + b)[0] == a[0] && (a + b)[1..] == b;
    } else {
      assert (a + b)[0] == a[0] && (a + b)[1..] == a[1..] + b;
      JoinAppend(a[1..], b, sep);
    }
  }

  /** The output document for the loaded records and the template. */
  function Document(records: seq<Record>, template: string): string
  {
    Splice(template, Join(RenderPages(Chunks(records), RecordLabel), "\n"))
  }

  /**
   * `generate_labels` without its file I/O: fails when the table cannot be
   * loaded or the template is missing; otherwise builds the pages and splices
   * them into the template.
   */
  method GenerateLabels(table: Table, template: Option<string>) returns (output: Option<string>)
    ensures output.None? <==> LoadCsv(table).None? || template.None?
    ensures output.Some? ==> output.value == Document(LoadCsv(table).value, template.value)
  {
    var loaded := LoadCsv(table);
    if loaded.None? {
      return None;
    }
    if template.None? {
      return None;
    }
    var pages, totalPages := GeneratePages(loaded.value, RecordLabel);
    var allPagesHtml := Join(pages, "\n");
    output := Some(Splice(template.value, allPagesHtml));
  }

  /**
   * 23 rows of which one lacks its selling price: 22 records are kept, on
   * two pages holding 21 and 1 labels.
   */
  lemma TwentyThreeRowsOneDropped(rows: seq<Row>)
    requires |rows| == 23 && DroppedCount(rows) == 1
    ensures |KeepRows(rows)| == 22
    ensures |Chunks(KeepRows(rows))| == 2
    ensures |Chunks(KeepRows(rows))[0]| == 21 && |Chunks(KeepRows(rows))[1]| == 1
  {
    KeepRowsCount(rows);
    var kept := KeepRows(rows);
    ChunksAreSlices(kept);
  }
}
