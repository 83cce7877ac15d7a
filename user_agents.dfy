/**
 * The user-agent list that FetcherDefault.init builds from the configuration:
 * a file's lines are trimmed, blank and `#` comment lines are dropped, and the
 * list (from a file or given inline) is deduplicated keeping first-seen order.
 */
module UserAgents {
  import opened Wrappers
  import opened Sequences

  // ---------------------------------------------------------------------
  // String.trim
  // ---------------------------------------------------------------------

  /** Java's String.trim strips every char at or below U+0020 from both ends. */
  predicate IsTrimmable(c: char) {
    c <= ' '
  }

  /** A string that trim leaves as it is. */
  predicate Trimmed(s: string) {
    |s| == 0 || (!IsTrimmable(s[0]) && !IsTrimmable(s[|s| - 1]))
  }

  /** The number of strippable chars at the front of `s`. */
  function LeadingCount(s: string): (n: nat)
    ensures n <= |s|
    ensures forall k :: 0 <= k < n ==> IsTrimmable(s[k])
    ensures n < |s| ==> !IsTrimmable(s[n])
  {
    if |s| == 0 || !IsTrimmable(s[0]) then 0 else 1 + LeadingCount(s[1..])
  }

  /** The number of strippable chars at the back of `s`. */
  function TrailingCount(s: string): (n: nat)
    ensures n <= |s|
    ensures forall k :: |s| - n <= k < |s| ==> IsTrimmable(s[k])
    ensures n < |s| ==> !IsTrimmable(s[|s| - 1 - n])
  {
    if |s| == 0 || !IsTrimmable(s[|s| - 1]) then 0 else 1 + TrailingCount(s[..|s| - 1])
  }

  /**
   * String.trim: the part of `s` left once the strippable chars at both ends
   * are removed. The result starts right after the strippable prefix, only
   * strippable chars follow it, and it neither starts nor ends with one.
   */
  function Trim(s: string): (r: string)
    ensures Trimmed(r)
    ensures LeadingCount(s) + |r| <= |s|
    ensures r == s[LeadingCount(s)..LeadingCount(s) + |r|]
    ensures forall k :: LeadingCount(s) + |r| <= k < |s| ==> IsTrimmable(s[k])
  {
    var lead := LeadingCount(s);
    if lead == |s| then []
    else
      var trail := TrailingCount(s);
      assert lead < |s| - trail;
      s[lead..|s| - trail]
  }

  // ---------------------------------------------------------------------
  // The stream pipeline: map(String::trim), filter(non-empty, not '#')
  // ---------------------------------------------------------------------

  /** A trimmed line that the filter keeps: not empty and not a comment. */
  predicate Kept(s: string) {
    |s| > 0 && s[0] != '#'
  }

  /** `map(String::trim)` over the lines. */
  function TrimAll(lines: seq<string>): (r: seq<string>)
    ensures |r| == |lines|
    ensures forall i :: 0 <= i < |lines| ==> r[i] == Trim(lines[i])
  {
    if |lines| == 0 then [] else [Trim(lines[0])] + TrimAll(lines[1..])
  }

  /** `filter(s -> !s.isEmpty() && s.charAt(0) != '#')`. */
  function KeepFilter(ts: seq<string>): (r: seq<string>)
    ensures forall x :: x in r <==> x in ts && Kept(x)
  {
    if |ts| == 0 then []
    else if Kept(ts[0]) then [ts[0]] + KeepFilter(ts[1..])
    else KeepFilter(ts[1..])
  }

  /** The lines of an agent file after trimming and filtering. */
  function Clean(lines: seq<string>): (r: seq<string>)
    ensures forall x :: x in r <==> x in TrimAll(lines) && Kept(x)
  {
    KeepFilter(TrimAll(lines))
  }

  // ---------------------------------------------------------------------
  // new ArrayList<>(new LinkedHashSet<>(list))
  // ---------------------------------------------------------------------

  /**
   * LinkedHashSet insertion: an element is added when first seen and ignored
   * afterwards. The result holds each element of `s` exactly once.
   */
  function Dedup(s: seq<string>): (r: seq<string>)
    ensures NoDup(r)
    ensures forall x :: x in r <==> x in s
  {
    if |s| == 0 then []
    else
      var p := Dedup(s[..|s| - 1]);
      var x := s[|s| - 1];
      if x in p then p else p + [x]
  }

  /** A first occurrence inside a prefix is the first occurrence in the whole sequence. */
  lemma FirstIndexPrefix(s: seq<string>, n: nat, x: string)
    requires n <= |s| && x in s[..n]
    ensures FirstIndex(s, x) == FirstIndex(s[..n], x)
  {
  }

  /** Dedup keeps the elements in the order of their first occurrence in `s`. */
  lemma {:induction false} DedupFirstSeenOrder(s: seq<string>)
    ensures forall i, j :: 0 <= i < j < |Dedup(s)| ==>
              FirstIndex(s, Dedup(s)[i]) < FirstIndex(s, Dedup(s)[j])
  {
    if |s| > 0 {
      var n := |s| - 1;
      var pre := s[..n];
      var p := Dedup(pre);
      var x := s[n];
      DedupFirstSeenOrder(pre);
      forall y | y in p
        ensures FirstIndex(s, y) == FirstIndex(pre, y) < n
      {
        FirstIndexPrefix(s, n, y);
      }
      if x !in p {
        assert x !in pre;
        assert FirstIndex(s, x) == n;
        var r := p + [x];
        assert r == Dedup(s);
        forall i, j | 0 <= i < j < |r|
          ensures FirstIndex(s, r[i]) < FirstIndex(s, r[j])
        {
          assert r[i] in p;
          if j < |p| {
            assert r[j] in p;
          }
        }
      }
    }
  }

  /** A list without repeats comes out of Dedup unchanged. */
  lemma {:induction false} DedupOfDistinct(s: seq<string>)
    requires NoDup(s)
    ensures Dedup(s) == s
  {
    if |s| > 0 {
      var n := |s| - 1;
      assert NoDup(s[..n]);
      DedupOfDistinct(s[..n]);
      assert s[n] !in s[..n];
      assert s[..n] + [s[n]] == s;
    }
  }

  /** Dedup is idempotent: deduplicating a second time changes nothing. */
  lemma DedupIdempotent(s: seq<string>)
    ensures Dedup(Dedup(s)) == Dedup(s)
  {
  }

  /** Filtering keeps the relative order of the first occurrences of kept elements. */
  lemma {:induction false} KeepFilterOrder(ts: seq<string>, x: string, y: string)
    requires x in KeepFilter(ts) && y in KeepFilter(ts)
    ensures FirstIndex(KeepFilter(ts), x) < FirstIndex(KeepFilter(ts), y)
        <==> FirstIndex(ts, x) < FirstIndex(ts, y)
  {
    var t := ts[0];
    var rest := ts[1..];
    if Kept(t) {
      assert KeepFilter(ts) == [t] + KeepFilter(rest);
      if x != t && y != t {
        KeepFilterOrder(rest, x, y);
      }
    } else {
      assert KeepFilter(ts) == KeepFilter(rest);
      KeepFilterOrder(rest, x, y);
    }
  }

  // ---------------------------------------------------------------------
  // The whole init pipeline
  // ---------------------------------------------------------------------

  /** The user-agent list built from the lines of an agent file. */
  function Normalise(lines: seq<string>): (r: seq<string>)
    ensures NoDup(r)
    ensures forall x :: x in r <==> x in TrimAll(lines) && Kept(x)
  {
    Dedup(Clean(lines))
  }

  /**
   * Every agent from a file is a trimmed, non-empty line not starting with
   * `#`; no agent repeats; and the agents are exactly the kept trimmed lines.
   */
  lemma NormaliseWellFormed(lines: seq<string>)
    ensures forall x :: x in Normalise(lines) ==> Kept(x) && Trimmed(x)
    ensures NoDup(Normalise(lines))
    ensures forall x :: x in Normalise(lines) <==> x in TrimAll(lines) && Kept(x)
  {
  }

  /** The agents from a file keep the order in which each first occurs among the trimmed lines. */
  lemma NormaliseFirstSeenOrder(lines: seq<string>)
    ensures forall i, j :: 0 <= i < j < |Normalise(lines)| ==>
              FirstIndex(TrimAll(lines), Normalise(lines)[i]) < FirstIndex(TrimAll(lines), Normalise(lines)[j])
  {
    var ts := TrimAll(lines);
    var r := Normalise(lines);
    DedupFirstSeenOrder(Clean(lines));
    forall i, j | 0 <= i < j < |r|
      ensures FirstIndex(ts, r[i]) < FirstIndex(ts, r[j])
    {
      KeepFilterOrder(ts, r[i], r[j]);
    }
  }

  /** Where the configured `fetcher.user.agents` value comes from. */
  datatype AgentSource =
    | NotConfigured                     // the key is absent from the configuration
    | Inline(agents: seq<string>)       // the value is a list
    | ClasspathFile(file: FileLookup)   // the value is a string naming a class-path resource

  /** What looking up and reading the named class-path resource gave. */
  datatype FileLookup =
    | Missing                           // getResourceAsStream returned null
    | Unreadable                        // reading the stream threw an IOException
    | Lines(lines: seq<string>)

  datatype InitError = CannotReadAgentFile

  /**
   * The user-agent list that init installs: `Success(None)` when the key is
   * absent (the field is left as it was), an empty list for a missing file,
   * the normalised lines of a readable file, the deduplicated inline list,
   * and a failure only when the file exists but cannot be read.
   */
  function ConfiguredAgents(src: AgentSource): (r: Result<Option<seq<string>>, InitError>)
    ensures r == Success(None) <==> src.NotConfigured?
    ensures r.Failure? <==> src == ClasspathFile(Unreadable)
    ensures src == ClasspathFile(Missing) ==> r == Success(Some([]))
    ensures r.Success? && r.value.Some? ==> NoDup(r.value.value)
    ensures src.Inline? ==>
              r.Success? && r.value.Some? && forall x :: x in r.value.value <==> x in src.agents
    ensures src.Inline? ==> r == Success(Some(Dedup(src.agents)))
    ensures src.ClasspathFile? && src.file.Lines? ==> r == Success(Some(Normalise(src.file.lines)))
  {
    match src
    case NotConfigured => Success(None)
    case Inline(agents) => Success(Some(Dedup(agents)))
    case ClasspathFile(Missing) => Success(Some(Dedup([])))
    case ClasspathFile(Unreadable) => Failure(CannotReadAgentFile)
    case ClasspathFile(Lines(lines)) => Success(Some(Normalise(lines)))
  }
}
