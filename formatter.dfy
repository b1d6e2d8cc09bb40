/** `SQLFormatter`: path quoting, the comment clause and the FIRST/AFTER clause. */
module Formatter {
  import opened Wrappers
  import opened Strings
  import opened Schema

  /** Wraps one path segment in backticks. */
  function Quote(seg: string): string
  {
    "`" + seg + "`"
  }

  function QuoteAll(segs: seq<string>): (r: seq<string>)
    ensures |r| == |segs| && forall i :: 0 <= i < |segs| ==> r[i] == Quote(segs[i])
  {
    seq(|segs|, i requires 0 <= i < |segs| => Quote(segs[i]))
  }

  /** `format_path`: every dot-separated segment in backticks, joined with dots. */
  function FormatPath(path: string): string
  {
    Join(".", QuoteAll(Split(path, ".")))
  }

  /** Drops the first and last character of a quoted segment. */
  function Unquote(q: string): string
  {
    if |q| >= 2 then q[1..|q| - 1] else q
  }

  /** The inverse of `FormatPath`: split at the dots and unquote each part. */
  function UnquotePath(q: string): string
  {
    var parts := Split(q, ".");
    Join(".", seq(|parts|, i requires 0 <= i < |parts| => Unquote(parts[i])))
  }

  /**
   * A formatted path has one quoted part per segment of the original path, and
   * unquoting it gives the original path back (segments never hold a dot, and a
   * backtick inside a segment survives, as only the outer pair is stripped).
   */
  lemma FormatPathRoundTrip(path: string)
    ensures Split(FormatPath(path), ".") == QuoteAll(Split(path, "."))
    ensures |Split(FormatPath(path), ".")| == |Split(path, ".")|
    ensures UnquotePath(FormatPath(path)) == path
  {
    var segs := Split(path, ".");
    var quoted := QuoteAll(segs);
    SplitPartsFree(path, ".");
    forall k | 0 <= k < |quoted| ensures '.' !in quoted[k] {
      ContainsChar(segs[k], '.');
      assert quoted[k] == "`" + segs[k] + "`";
    }
    SplitJoin(quoted, '.');
    var unq := seq(|quoted|, i requires 0 <= i < |quoted| => Unquote(quoted[i]));
    assert unq == segs;
    JoinSplit(path, ".");
  }

  /** `format_comment`: `COMMENT` followed by the formatter's literal for the text. */
  function FormatComment(h: Helper, comment: string): string
  {
    "COMMENT " + h.describe(comment)
  }

  /** `format_after_clause`: nothing, ` FIRST`, or ` AFTER` and the sibling in backticks. */
  function FormatAfterClause(item: Descriptor): (r: string)
    ensures item.moveafter.None? <==> r == ""
    ensures item.moveafter == Some("first") <==> r == " FIRST"
    ensures item.moveafter.Some? && item.moveafter.value != "first" ==>
      r == " AFTER " + Quote(item.moveafter.value)
  {
    match item.moveafter
    case None => ""
    case Some(after) => if after == "first" then " FIRST" else " AFTER `" + after + "`"
  }

  /** Reads the positional clause back. */
  function ParseAfterClause(clause: string): Option<string>
  {
    if clause == "" then None
    else if clause == " FIRST" then Some("first")
    else if |clause| >= 9 && clause[..8] == " AFTER `" then Some(clause[8..|clause| - 1])
    else None
  }

  /** The positional clause is unambiguous: it determines the `moveafter` it came from. */
  lemma AfterClauseRoundTrip(item: Descriptor)
    ensures ParseAfterClause(FormatAfterClause(item)) == item.moveafter
  {
    if item.moveafter.Some? && item.moveafter.value != "first" {
      var c := FormatAfterClause(item);
      assert c[..8] == " AFTER `";
      assert c[8..|c| - 1] == item.moveafter.value;
    }
  }
}
