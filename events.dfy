/** The messages a clone sends to the progress display, and the writer
    that turns git's progress text into them (internal/config/download.go). */
module Events {

  import opened Wrappers
  import opened Text

  /** Everything the display's update function receives. A clone sends
      `Progress`, `Submodule` and `Done`; the terminal runtime sends the
      others. Errors are represented by their message. */
  datatype Msg =
    | KeyPress(key: string)
    | WindowSize(width: int)
    | Progress(index: int, percent: real)
    | Submodule(index: int, message: string)
    | Done(index: int, error: Option<string>)
    | Frame
    | Other

  /** Does the message describe repository `i`'s clone? */
  predicate IsCloneMsg(m: Msg) { m.Progress? || m.Submodule? || m.Done? }

  /** The smallest digit string that `strconv.ParseFloat(_, 64)` rejects as
      out of range: 2^1024 - 2^970, halfway between the largest float64 and
      2^1024, which rounds up to infinity. In hexadecimal it is 2^56 - 4
      followed by 242 zero digits. */
  const FloatOverflow: nat :=
    0xFF_FFFF_FFFF_FFFC_0000000000000000_0000000000000000_0000000000000000_0000000000000000_0000000000000000_0000000000000000_0000000000000000_0000000000000000_0000000000000000_0000000000000000_0000000000000000_0000000000000000_0000000000000000_0000000000000000_0000000000000000_00

  /** `(\d+)%` matches `s[i..e+1]`: a maximal run of digits at `i..e`,
      followed by a percent sign. */
  predicate MatchAt(s: string, i: int, e: int) {
    0 <= i < e < |s| && AllDigits(s[i..e]) && s[e] == '%' && (i == 0 || !IsDigit(s[i - 1]))
  }

  /** The first percent sign at or after `j` that follows a digit. */
  function FirstPercentAfterDigit(s: string, j: nat): (r: Option<nat>)
    requires j <= |s|
    ensures r.Some? ==> j <= r.value < |s| && r.value >= 1 && s[r.value] == '%' && IsDigit(s[r.value - 1])
    ensures r.Some? ==> forall k :: j <= k < r.value ==> !(k >= 1 && s[k] == '%' && IsDigit(s[k - 1]))
    ensures r.None? ==> forall k :: j <= k < |s| ==> !(k >= 1 && s[k] == '%' && IsDigit(s[k - 1]))
    decreases |s| - j
  {
    if j == |s| then None
    else if j >= 1 && s[j] == '%' && IsDigit(s[j - 1]) then Some(j)
    else FirstPercentAfterDigit(s, j + 1)
  }

  /** Start of the run of digits that ends just before `e`. */
  function RunStart(s: string, e: nat): (r: nat)
    requires e <= |s|
    ensures r <= e && AllDigits(s[r..e]) && (r == 0 || !IsDigit(s[r - 1]))
    decreases e
  {
    if e > 0 && IsDigit(s[e - 1]) then
      var r := RunStart(s, e - 1);
      assert s[r..e] == s[r..e - 1] + [s[e - 1]];
      r
    else e
  }

  /** The leftmost match of `(\d+)%`, as `FindStringSubmatch` finds it:
      the digits' start and the position of the percent sign. */
  function PercentMatch(s: string): (r: Option<(nat, nat)>)
    ensures r.Some? ==> MatchAt(s, r.value.0, r.value.1)
  {
    match FirstPercentAfterDigit(s, 0)
    case None => None
    case Some(e) => Some((RunStart(s, e), e))
  }

  /** `extractPercentage`: the leftmost `(\d+)%` read as a number and
      divided by 100; `(0, false)` when there is none or the number is too
      large for a float64. */
  function ExtractPercentage(s: string): (r: (real, bool))
    ensures !r.1 ==> r.0 == 0.0
    ensures r.1 ==> 0.0 <= r.0
  {
    match PercentMatch(s)
    case None => (0.0, false)
    case Some((i, e)) => ParsePercent(s[i..e])
  }

  /** `strconv.ParseFloat` of a digit string, divided by 100; `(0, false)`
      when the number is out of float64's range. */
  function ParsePercent(digits: string): (r: (real, bool))
    requires AllDigits(digits)
  {
    var n := DecimalValue(digits);
    if n >= FloatOverflow then (0.0, false) else (n as real / 100.0, true)
  }

  /** A match at `i` ends at the first non-digit after `i`, so the start
      determines the whole match. */
  lemma MatchEndDetermined(s: string, i: int, e: int, e': int)
    requires MatchAt(s, i, e) && MatchAt(s, i, e')
    ensures e == e'
  {
  }

  /** `PercentMatch` finds a match exactly when there is one, and it finds
      the leftmost. */
  lemma PercentMatchIsLeftmost(s: string)
    ensures PercentMatch(s).None? <==> forall i, e :: !MatchAt(s, i, e)
    ensures PercentMatch(s).Some? ==> forall i, e :: MatchAt(s, i, e) ==> PercentMatch(s).value.0 <= i
  {
    var f := FirstPercentAfterDigit(s, 0);
    forall i, e | MatchAt(s, i, e)
      ensures f.Some? && RunStart(s, f.value) <= i
    {
      assert s[i..e][e - 1 - i] == s[e - 1];
    }
  }

  /** The first percent sign after a digit is where no earlier one is. */
  lemma FirstPercentAt(s: string, e: nat)
    requires 1 <= e < |s| && s[e] == '%' && IsDigit(s[e - 1])
    requires forall k :: 0 <= k < e ==> s[k] != '%'
    ensures FirstPercentAfterDigit(s, 0) == Some(e)
  {
  }

  /** The digit run ending before `e` starts at `a` when `a..e` are digits
      and the character before `a` is not. */
  lemma {:induction false} RunStartAt(s: string, a: nat, e: nat)
    requires a <= e <= |s| && AllDigits(s[a..e]) && (a == 0 || !IsDigit(s[a - 1]))
    ensures RunStart(s, e) == a
    decreases e
  {
    if e > a {
      assert s[a..e][e - 1 - a] == s[e - 1];
      assert s[a..e - 1] == s[a..e][..e - 1 - a];
      RunStartAt(s, a, e - 1);
    }
  }

  /** Text that begins with no percent sign, then a number and a percent
      sign, yields that number divided by 100: "Receiving objects:  15%
      (2734/18236)" gives 0.15. */
  lemma ExtractAfterPlainPrefix(pre: string, d: string, rest: string)
    requires '%' !in pre && (pre == [] || !IsDigit(pre[|pre| - 1]))
    requires d != [] && AllDigits(d) && DecimalValue(d) < FloatOverflow
    ensures ExtractPercentage(pre + d + "%" + rest) == (DecimalValue(d) as real / 100.0, true)
  {
    ParsesNumberAfterPlainPrefix(pre, d, rest);
    ParsePercentInRange(d);
  }

  /** The number such a text is read from is the one after the prefix. */
  lemma ParsesNumberAfterPlainPrefix(pre: string, d: string, rest: string)
    requires '%' !in pre && (pre == [] || !IsDigit(pre[|pre| - 1]))
    requires d != [] && AllDigits(d)
    ensures ExtractPercentage(pre + d + "%" + rest) == ParsePercent(d)
  {
    var s := pre + d + "%" + rest;
    MatchAfterPlainPrefix(pre, d, rest);
    assert s[|pre|..|pre| + |d|] == d;
  }

  lemma ParsePercentInRange(d: string)
    requires AllDigits(d) && DecimalValue(d) < FloatOverflow
    ensures ParsePercent(d) == (DecimalValue(d) as real / 100.0, true)
  {
  }

  /** The leftmost match in such a text is the number after the prefix. */
  lemma MatchAfterPlainPrefix(pre: string, d: string, rest: string)
    requires '%' !in pre && (pre == [] || !IsDigit(pre[|pre| - 1]))
    requires d != [] && AllDigits(d)
    ensures PercentMatch(pre + d + "%" + rest) == Some((|pre|, |pre| + |d|))
  {
    var s := pre + d + "%" + rest;
    var e := |pre| + |d|;
    assert s[e] == '%';
    assert s[e - 1] == d[|d| - 1];
    forall k | 0 <= k < e
      ensures s[k] != '%'
    {
      if k < |pre| { assert s[k] == pre[k]; } else { assert s[k] == d[k - |pre|]; }
    }
    FirstPercentAt(s, e);
    assert s[|pre|..e] == d;
    if pre != [] { assert s[|pre| - 1] == pre[|pre| - 1]; }
    RunStartAt(s, |pre|, e);
  }

  /** The events one `Write` call of the progress writer sends. */
  function WriteEvents(index: int, p: string): (r: seq<Msg>)
  {
    if Contains(p, "Submodule") || Contains(p, "submodule") || Contains(p, "git submodule") then
      [Submodule(index, TrimSpace(p))]
    else
      var (percent, ok) := ExtractPercentage(p);
      if ok then [Progress(index, percent)] else []
  }

  /** Every write sends at most one event, for the writer's repository:
      either the trimmed text as a submodule status, or a non-negative
      percentage; text mentioning submodules never counts as progress. */
  lemma WriteEventsShape(index: int, p: string)
    ensures |WriteEvents(index, p)| <= 1
    ensures forall m :: m in WriteEvents(index, p) ==> IsCloneMsg(m) && !m.Done? && m.index == index
    ensures forall m :: m in WriteEvents(index, p) && m.Progress? ==> 0.0 <= m.percent
    ensures forall m :: m in WriteEvents(index, p) && m.Submodule? ==>
              m.message == TrimSpace(p) && (Contains(p, "Submodule") || Contains(p, "submodule"))
    ensures Contains(p, "Submodule") || Contains(p, "submodule") ==>
      WriteEvents(index, p) == [Submodule(index, TrimSpace(p))]
  {
    if Contains(p, "git submodule") { GitSubmoduleMentionsSubmodule(p); }
  }

  /** The third test of `Write` is subsumed by the second. */
  lemma GitSubmoduleMentionsSubmodule(p: string)
    requires Contains(p, "git submodule")
    ensures Contains(p, "submodule")
  {
    var i :| OccursAt(p, "git submodule", i);
    assert p[i + 4..i + 13] == p[i..i + 13][4..];
    assert OccursAt(p, "submodule", i + 4);
  }

  /** A channel, seen as the sequence of everything sent on it so far. */
  class Channel {
    var sent: seq<Msg>

    constructor ()
      ensures sent == []
    {
      sent := [];
    }

    method Send(m: Msg)
      modifies this
      ensures sent == old(sent) + [m]
    {
      sent := sent + [m];
    }
  }

  /** `repoProgressWriter`: the `io.Writer` git reports progress to. */
  class ProgressWriter {
    const index: int
    const progressCh: Channel

    constructor (index: int, progressCh: Channel)
      ensures this.index == index && this.progressCh == progressCh
    {
      this.index := index;
      this.progressCh := progressCh;
    }

    /** `Write`: sends the events of `p` and reports the whole of `p`
        written, never an error. */
    method Write(p: string) returns (n: int, err: Option<string>)
      modifies progressCh
      ensures n == |p| && err == None
      ensures progressCh.sent == old(progressCh.sent) + WriteEvents(index, p)
    {
      if Contains(p, "Submodule") || Contains(p, "submodule") || Contains(p, "git submodule") {
        progressCh.Send(Submodule(index, TrimSpace(p)));
        return |p|, None;
      }
      var (percent, ok) := ExtractPercentage(p);
      if ok {
        progressCh.Send(Progress(index, percent));
      }
      return |p|, None;
    }

    /** Git's successive calls of `Write` during one clone. */
    method Replay(writes: seq<string>)
      modifies progressCh
      ensures progressCh.sent == old(progressCh.sent) + WritesEvents(index, writes)
    {
      ghost var start := progressCh.sent;
      var k := 0;
      while k < |writes|
        invariant 0 <= k <= |writes|
        invariant progressCh.sent == start + WritesEvents(index, writes[..k])
      {
        ghost var before, sent := WritesEvents(index, writes[..k]), WriteEvents(index, writes[k]);
        WritesEventsSnoc(index, writes, k);
        var _, _ := Write(writes[k]);
        assert progressCh.sent == start + (before + sent);
        k := k + 1;
      }
      assert writes[..|writes|] == writes;
    }
  }

  /** The events of a sequence of writes, in order. */
  function WritesEvents(index: int, writes: seq<string>): seq<Msg>
    decreases |writes|
  {
    if writes == [] then []
    else WritesEvents(index, writes[..|writes| - 1]) + WriteEvents(index, writes[|writes| - 1])
  }

  /** One more write adds its events at the end. */
  lemma WritesEventsSnoc(index: int, writes: seq<string>, k: nat)
    requires k < |writes|
    ensures WritesEvents(index, writes[..k + 1]) == WritesEvents(index, writes[..k]) + WriteEvents(index, writes[k])
  {
    var done := writes[..k + 1];
    assert done[..k] == writes[..k] && done[k] == writes[k];
  }

  /** The whole stream one clone sends, in the order the display receives
      it: a clone whose destination exists reports done at once; otherwise
      it reports 0%, then what git writes, then done with git's result. */
  function CloneEvents(index: int, destExists: bool, writes: seq<string>, cloneErr: Option<string>): seq<Msg>
  {
    if destExists then [Done(index, None)]
    else [Progress(index, 0.0)] + WritesEvents(index, writes) + [Done(index, cloneErr)]
  }

  lemma {:induction false} WritesEventsShape(index: int, writes: seq<string>)
    ensures forall m :: m in WritesEvents(index, writes) ==> IsCloneMsg(m) && !m.Done? && m.index == index
    decreases |writes|
  {
    if writes != [] {
      WritesEventsShape(index, writes[..|writes| - 1]);
      WriteEventsShape(index, writes[|writes| - 1]);
    }
  }

  /** A clone's stream is about its own repository only and ends with its
      single `Done`, which carries no error when the destination already
      existed and git's error otherwise. */
  lemma CloneEventsShape(index: int, destExists: bool, writes: seq<string>, cloneErr: Option<string>)
    ensures var r := CloneEvents(index, destExists, writes, cloneErr);
      r != [] && r[|r| - 1] == Done(index, if destExists then None else cloneErr) &&
      (forall k :: 0 <= k < |r| ==> IsCloneMsg(r[k]) && r[k].index == index) &&
      (forall k :: 0 <= k < |r| - 1 ==> !r[k].Done?)
  {
    if !destExists {
      WritesEventsShape(index, writes);
      BracketedShape(index, WritesEvents(index, writes), cloneErr);
    }
  }

  /** The writer's events between the opening 0% and the closing `Done`. */
  lemma BracketedShape(index: int, w: seq<Msg>, cloneErr: Option<string>)
    requires forall m :: m in w ==> IsCloneMsg(m) && !m.Done? && m.index == index
    ensures var r := [Progress(index, 0.0)] + w + [Done(index, cloneErr)];
      (forall k :: 0 <= k < |r| ==> IsCloneMsg(r[k]) && r[k].index == index) &&
      (forall k :: 0 <= k < |r| - 1 ==> !r[k].Done?)
  {
    var r := [Progress(index, 0.0)] + w + [Done(index, cloneErr)];
    forall k | 0 <= k < |r|
      ensures IsCloneMsg(r[k]) && r[k].index == index && (k < |r| - 1 ==> !r[k].Done?)
    {
      if 1 <= k < |r| - 1 { assert r[k] == w[k - 1]; assert w[k - 1] in w; }
    }
  }

  /** `cloneRepository`. Whether the destination exists, what git writes to
      the progress writer (in order) and git's result are parameters: the
      file system check and the clone itself are not modelled. The loop
      stands for git's calls of `Write`. */
  method CloneRepository(index: int, destExists: bool, writes: seq<string>, cloneErr: Option<string>,
                         progressCh: Channel, doneCh: Channel)
    requires progressCh != doneCh
    modifies progressCh, doneCh
    ensures doneCh.sent == old(doneCh.sent) + [Done(index, if destExists then None else cloneErr)]
    ensures destExists ==> progressCh.sent == old(progressCh.sent)
    ensures !destExists ==>
      progressCh.sent == old(progressCh.sent) + [Progress(index, 0.0)] + WritesEvents(index, writes)
  {
    if destExists {
      doneCh.Send(Done(index, None));
      return;
    }
    var progress := new ProgressWriter(index, progressCh);
    progressCh.Send(Progress(index, 0.0));
    progress.Replay(writes);
    doneCh.Send(Done(index, cloneErr));
  }
}
