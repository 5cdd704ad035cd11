/** Reading the text of `ipset list`: the header strip done with the pattern
    `(?m)^(.*\n)*Members:\n`, the tokenizer `fieldsFunc`, and the three listing
    functions `list`, `listWithOpts` and `listAllSetNames` built from them. */
module Listing {
  import opened Wrappers
  import opened Text
  import opened Exec

  const MembersLine := "Members:\n"

  /** The language of the anchored pattern `(.*\n)*Members:\n`: zero or more whole
      lines, then the line "Members:". Since `.` does not match a newline, each
      repetition of `(.*\n)` runs exactly to the first newline. */
  predicate InHeaderPattern(p: string)
    decreases |p|
  {
    p == MembersLine
    || (var n := IndexOf(p, '\n'); n < |p| && InHeaderPattern(p[n + 1..]))
  }

  /** A line exactly "Members:" ends at index `k` of `s` and starts at a line start. */
  predicate HeaderEndsAt(s: string, k: int) {
    && |MembersLine| <= k <= |s|
    && s[k - |MembersLine|..k] == MembersLine
    && (k == |MembersLine| || s[k - |MembersLine| - 1] == '\n')
  }

  /** A header end at the end of `p`, other than `p` being the line itself, survives
      dropping the first line of `p`, which ends at `n`. */
  lemma {:induction false} HeaderEndDropsFirstLine(p: string, n: nat)
    requires p != MembersLine && HeaderEndsAt(p, |p|)
    requires n == IndexOf(p, '\n')
    ensures n < |p| && HeaderEndsAt(p[n + 1..], |p[n + 1..]|)
  {
    var m := |MembersLine|;
    assert |p| > m;
    assert p[|p| - m - 1] == '\n';
    assert n <= |p| - m - 1;
    var rest := p[n + 1..];
    assert rest[|rest| - m..] == p[|p| - m..];
    if |rest| > m {
      assert rest[|rest| - m - 1] == p[|p| - m - 1];
    }
  }

  /** ... and a header end at the end of the text after the first line is one of `p`. */
  lemma {:induction false} HeaderEndKeepsFirstLine(p: string, n: nat)
    requires n == IndexOf(p, '\n') && n < |p|
    requires HeaderEndsAt(p[n + 1..], |p[n + 1..]|)
    ensures HeaderEndsAt(p, |p|)
  {
    var m := |MembersLine|;
    var rest := p[n + 1..];
    assert p[|p| - m..] == rest[|rest| - m..];
    if |rest| > m {
      assert rest[|rest| - m - 1] == p[|p| - m - 1];
    } else {
      assert p[|p| - m - 1] == p[n];
    }
  }

  lemma {:induction false} HeaderPatternIsHeaderEnd(p: string)
    ensures InHeaderPattern(p) <==> HeaderEndsAt(p, |p|)
    decreases |p|
  {
    if p != MembersLine {
      var n := IndexOf(p, '\n');
      if n < |p| {
        var rest := p[n + 1..];
        assert InHeaderPattern(p) <==> InHeaderPattern(rest);
        HeaderPatternIsHeaderEnd(rest);
        if HeaderEndsAt(rest, |rest|) {
          HeaderEndKeepsFirstLine(p, n);
        }
        if HeaderEndsAt(p, |p|) {
          HeaderEndDropsFirstLine(p, n);
        }
      } else {
        assert !InHeaderPattern(p);
        if HeaderEndsAt(p, |p|) {
          HeaderEndDropsFirstLine(p, n);
        }
      }
    }
  }

  /** A prefix of `s` is matched by the header pattern exactly when it ends with a
      "Members:" line. */
  lemma {:induction false} HeaderPatternMatchesAt(s: string, k: nat)
    requires k <= |s|
    ensures InHeaderPattern(s[..k]) <==> HeaderEndsAt(s, k)
  {
    HeaderPatternIsHeaderEnd(s[..k]);
    if HeaderEndsAt(s[..k], k) || HeaderEndsAt(s, k) {
      assert s[..k][k - |MembersLine|..k] == s[k - |MembersLine|..k];
    }
  }

  /** The strip removes exactly up to the last header end. */
  lemma {:induction false} StripHeaderAt(s: string, k: nat)
    requires k <= |s| && HeaderEndsAt(s, k)
    requires forall j :: k < j <= |s| ==> !HeaderEndsAt(s, j)
    ensures StripHeader(s) == s[k..]
  {
    var r := StripHeader(s);
    assert |r| < |s|;
    assert |s| - |r| == k;
  }

  /** The largest header end at or below `k`. */
  function LastHeaderEnd(s: string, k: nat): (r: Option<nat>)
    requires k <= |s|
    ensures r.Some? ==> r.value <= k && HeaderEndsAt(s, r.value)
    ensures r.Some? ==> forall j :: r.value < j <= k ==> !HeaderEndsAt(s, j)
    ensures r.None? ==> forall j :: 0 <= j <= k ==> !HeaderEndsAt(s, j)
    decreases k
  {
    if k < |MembersLine| then None
    else if HeaderEndsAt(s, k) then Some(k)
    else LastHeaderEnd(s, k - 1)
  }

  /** `regexp.MustCompile("(?m)^(.*\n)*Members:\n").ReplaceAllString(s, "")`. The leftmost
      match starts at 0 and the greedy star makes it run to the last "Members:" line;
      nothing after that line can match again. */
  function StripHeader(s: string): (r: string)
    ensures |r| <= |s| && r == s[|s| - |r|..]
    ensures |r| == |s| <==> forall k :: 0 <= k <= |s| ==> !HeaderEndsAt(s, k)
    ensures |r| < |s| ==> HeaderEndsAt(s, |s| - |r|)
    ensures |r| < |s| ==> forall k :: |s| - |r| < k <= |s| ==> !HeaderEndsAt(s, k)
  {
    match LastHeaderEnd(s, |s|)
    case None => s
    case Some(k) => s[k..]
  }

  /** The strip in the pattern's own terms: with no prefix in the pattern's language
      the text is kept, otherwise the longest such prefix is removed. */
  lemma {:induction false} StripHeaderRemovesLongestMatch(s: string, k: nat)
    ensures (forall j :: 0 <= j <= |s| ==> !InHeaderPattern(s[..j])) ==> StripHeader(s) == s
    ensures k <= |s| && InHeaderPattern(s[..k]) && (forall j :: k < j <= |s| ==> !InHeaderPattern(s[..j]))
            ==> StripHeader(s) == s[k..]
  {
    forall j | 0 <= j <= |s| ensures InHeaderPattern(s[..j]) <==> HeaderEndsAt(s, j) {
      HeaderPatternMatchesAt(s, j);
    }
  }

  /** The tokens of a list reply: strip the header, then `strings.FieldsFunc(_, fieldsFunc)`. */
  function ListTokens(out: string): (r: seq<string>)
    ensures forall i :: 0 <= i < |r| ==> IsToken(r[i], IsListSeparator)
    ensures Concat(r) == Keep(StripHeader(out), IsListSeparator)
  {
    FieldsKeepEveryOtherCharacter(StripHeader(out), IsListSeparator);
    Fields(StripHeader(out), IsListSeparator)
  }

  /** One entry per line, each line ended by a newline, as `ipset list` prints members. */
  function Lines(entries: seq<string>): string {
    if |entries| == 0 then "" else entries[0] + "\n" + Lines(entries[1..])
  }

  lemma {:induction false} FieldsOfLines(entries: seq<string>)
    requires forall i :: 0 <= i < |entries| ==> IsToken(entries[i], IsListSeparator)
    ensures Fields(Lines(entries), IsListSeparator) == entries
    decreases |entries|
  {
    if |entries| > 0 {
      FieldsOfLines(entries[1..]);
      FieldsAroundSeparator(entries[0], '\n', Lines(entries[1..]), IsListSeparator);
      FieldsOfToken(entries[0], IsListSeparator);
      assert entries[0] + "\n" + Lines(entries[1..]) == entries[0] + ['\n'] + Lines(entries[1..]);
      assert entries == [entries[0]] + entries[1..];
    }
  }

  /** A slice of the text after a prefix is the same slice of that text. */
  lemma SliceAfterPrefix(a: string, b: string, i: nat, k: nat)
    requires i + k <= |b|
    ensures (a + b)[|a| + i..|a| + i + k] == b[i..i + k]
    ensures k > 0 ==> (a + b)[|a| + i] == b[i]
  {
    var left, right := (a + b)[|a| + i..|a| + i + k], b[i..i + k];
    assert forall q :: 0 <= q < k ==> left[q] == right[q];
  }

  /** A "Members:" line that starts at a line start of the entry lines is one of the entries. */
  lemma {:induction false} MembersLineInLines(entries: seq<string>, i: nat)
    requires forall j :: 0 <= j < |entries| ==> IsToken(entries[j], IsListSeparator)
    requires i + |MembersLine| <= |Lines(entries)|
    requires Lines(entries)[i..i + |MembersLine|] == MembersLine
    requires i == 0 || Lines(entries)[i - 1] == '\n'
    ensures exists j :: 0 <= j < |entries| && entries[j] == "Members:"
    decreases |entries|
  {
    var ls := Lines(entries);
    var e := entries[0];
    var rest := Lines(entries[1..]);
    assert ls == e + "\n" + rest;
    assert IsToken(e, IsListSeparator);
    if i <= |e| {
      // The first newline at or after `i` ends `e`, and it ends the "Members:" line too.
      assert ls[..|e|] == e && ls[|e|] == '\n';
      assert forall p :: 0 <= p < |e| ==> ls[p] != '\n';
      assert forall k :: 0 <= k < 8 ==> MembersLine[k] != '\n';
      assert forall q :: i <= q < i + 8 ==> ls[q] == MembersLine[q - i];
      assert ls[i + 8] == '\n';
      assert i == 0 && |e| == 8;
      assert e == ls[..8] == MembersLine[..8];
    } else {
      var i2 := i - |e| - 1;
      SliceAfterPrefix(e + "\n", rest, i2, |MembersLine|);
      if i2 > 0 {
        SliceAfterPrefix(e + "\n", rest, i2 - 1, 1);
      }
      MembersLineInLines(entries[1..], i2);
      var j :| 0 <= j < |entries[1..]| && entries[1..][j] == "Members:";
      assert entries[j + 1] == "Members:";
    }
  }

  lemma {:induction false} HeaderEndShape(s: string, k: int)
    requires HeaderEndsAt(s, k)
    ensures s[k - 2] == ':' && s[k - 1] == '\n'
  {
    var m := s[k - |MembersLine|..k];
    assert m == MembersLine;
    assert s[k - 2] == m[|MembersLine| - 2];
    assert s[k - 1] == m[|MembersLine| - 1];
  }

  /** A "Members:" line cannot straddle the newline that ends a header. */
  lemma {:induction false} NoHeaderEndAcrossHeader(header: string, tail: string, k: int)
    requires HeaderEndsAt(header, |header|)
    requires |header| < k < |header| + |MembersLine|
    ensures !HeaderEndsAt(header + tail, k)
  {
    var out := header + tail;
    HeaderEndShape(header, |header|);
    assert out[|header| - 1] == '\n';
    if k <= |out| {
      var st := k - |MembersLine|;
      assert forall q :: 0 <= q < |MembersLine| - 1 ==> MembersLine[q] != '\n';
      assert out[st..k][|header| - 1 - st] == out[|header| - 1];
    }
  }

  /** A "Members:" line that starts inside the entry lines is one of the entries. */
  lemma {:induction false} NoHeaderEndInLines(header: string, entries: seq<string>, k: int)
    requires |header| > 0 && header[|header| - 1] == '\n'
    requires forall i :: 0 <= i < |entries| ==> IsToken(entries[i], IsListSeparator) && entries[i] != "Members:"
    requires |header| + |MembersLine| <= k
    ensures !HeaderEndsAt(header + Lines(entries), k)
  {
    var out := header + Lines(entries);
    if HeaderEndsAt(out, k) {
      var st := k - |MembersLine|;
      var i := st - |header|;
      assert Lines(entries)[i..i + |MembersLine|] == out[st..k];
      assert out[st - 1] == '\n';
      assert i == 0 || Lines(entries)[i - 1] == out[st - 1];
      MembersLineInLines(entries, i);
    }
  }

  /** No "Members:" line ends inside entry lines that follow a header, unless an entry
      is itself "Members:". */
  lemma {:induction false} NoHeaderEndAmongEntries(header: string, entries: seq<string>, k: int)
    requires InHeaderPattern(header)
    requires forall i :: 0 <= i < |entries| ==> IsToken(entries[i], IsListSeparator) && entries[i] != "Members:"
    requires |header| < k
    ensures !HeaderEndsAt(header + Lines(entries), k)
  {
    HeaderPatternIsHeaderEnd(header);
    if k < |header| + |MembersLine| {
      NoHeaderEndAcrossHeader(header, Lines(entries), k);
    } else {
      HeaderEndShape(header, |header|);
      NoHeaderEndInLines(header, entries, k);
    }
  }

  /** A reply made of any header that ends with the "Members:" line, followed by one entry
      per line (addresses, IPv6 addresses, `ip,proto:port` pairs alike), lists exactly those
      entries in order; only an entry spelled "Members:" would be taken for a header end. */
  lemma {:induction false} ListTokensOfMembers(header: string, entries: seq<string>)
    requires InHeaderPattern(header)
    requires forall i :: 0 <= i < |entries| ==> IsToken(entries[i], IsListSeparator) && entries[i] != "Members:"
    ensures ListTokens(header + Lines(entries)) == entries
  {
    var out := header + Lines(entries);
    assert out[..|header|] == header;
    HeaderPatternMatchesAt(out, |header|);
    forall k | |header| < k <= |out| ensures !HeaderEndsAt(out, k) {
      NoHeaderEndAmongEntries(header, entries, k);
    }
    StripHeaderAt(out, |header|);
    assert out[|header|..] == Lines(entries);
    FieldsOfLines(entries);
  }

  /** `list(set)`: `ipset list <set>`; on failure an empty list and the error. */
  function List(name: string, tool: Tool, h: seq<Argv>): (r: Step<Result<seq<string>>>)
    ensures r.issued == h + [["list", name]]
    ensures r.value.Ok? <==> tool(h, ["list", name]).ok
    ensures r.value.Ok? ==> r.value.value == ListTokens(tool(h, ["list", name]).output)
    ensures r.value.Err? ==> r.value.error == Failed(["list", name], tool(h, ["list", name]).output)
  {
    var argv := ["list", name];
    var reply := tool(h, argv);
    Step(h + [argv], if reply.ok then Ok(ListTokens(reply.output)) else Err(Failed(argv, reply.output)))
  }

  /** The vector `listWithOpts` assembles in `cmd`: the options, then "list" and the set. */
  function OptionsArgv(name: string, opts: seq<string>): (r: Argv)
    ensures |r| == |opts| + 2 && r[..|opts|] == opts && r[|opts|..] == ["list", name]
  {
    opts + ["list", name]
  }

  /** `listWithOpts(set, opts...)`: builds `cmd` from the options but runs `ipset list set`,
      so the options never reach the tool. */
  function ListWithOpts(name: string, opts: seq<string>, tool: Tool, h: seq<Argv>): (r: Step<Result<seq<string>>>)
    ensures r == List(name, tool, h)
  {
    var cmd := OptionsArgv(name, opts);
    var argv := ["list", name];
    var reply := tool(h, argv);
    Step(h + [argv], if reply.ok then Ok(ListTokens(reply.output)) else Err(Failed(argv, reply.output)))
  }

  /** The options are dropped: whatever they are, the same command is issued and the same
      result returned, and with any option the issued vector is not the one `cmd` holds. */
  lemma {:induction false} ListWithOptsIgnoresOptions(name: string, opts: seq<string>, tool: Tool, h: seq<Argv>)
    ensures ListWithOpts(name, opts, tool, h) == ListWithOpts(name, [], tool, h)
    ensures |opts| > 0 ==> ListWithOpts(name, opts, tool, h).issued[|h|] != OptionsArgv(name, opts)
  {
  }

  /** `listAllSetNames`: `ipset list -n`, tokenized without any header strip. */
  function ListAllSetNames(tool: Tool, h: seq<Argv>): (r: Step<Result<seq<string>>>)
    ensures r.issued == h + [["list", "-n"]]
    ensures r.value.Ok? <==> tool(h, ["list", "-n"]).ok
    ensures r.value.Ok? ==> forall i :: 0 <= i < |r.value.value| ==> IsToken(r.value.value[i], IsListSeparator)
    ensures r.value.Ok? ==> Concat(r.value.value) == Keep(tool(h, ["list", "-n"]).output, IsListSeparator)
    ensures r.value.Err? ==> r.value.error == Failed(["list", "-n"], tool(h, ["list", "-n"]).output)
  {
    var argv := ["list", "-n"];
    var reply := tool(h, argv);
    FieldsKeepEveryOtherCharacter(reply.output, IsListSeparator);
    Step(h + [argv], if reply.ok then Ok(Fields(reply.output, IsListSeparator)) else Err(Failed(argv, reply.output)))
  }

  /** Names printed one per line by `ipset list -n` come back as they were printed. */
  lemma {:induction false} ListAllSetNamesOfLines(names: seq<string>, tool: Tool, h: seq<Argv>)
    requires forall i :: 0 <= i < |names| ==> IsToken(names[i], IsListSeparator)
    requires tool(h, ["list", "-n"]) == Reply(true, Lines(names))
    ensures ListAllSetNames(tool, h).value == Ok(names)
  {
    FieldsOfLines(names);
  }
}
