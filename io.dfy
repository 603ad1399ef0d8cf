/** The I/O helpers of the prelude (src/stereoviewer/prelude/io.h, io.cpp):
    progress reporting (adapters, trackers and steppers), the text-stream
    helpers `uendl` and `ws_or_endl`, the line trimmer used when echoing a
    child process, and the rewriting of a run configuration by `run_sh`. */
module IO {
  import opened Maths
  import opened Arith

  function Pow2(k: nat): (p: real)
    ensures p >= 1.0
  {
    if k == 0 then 1.0 else 2.0 * Pow2(k - 1)
  }

  /** `std::numeric_limits<double>::min()`, the smallest positive normal
      double. */
  const DblMin: real := 1.0 / Pow2(1022)

  /** A `progress_adapter_base` with a fixed resolution (as the logger
      adapter has): `lastValue` is the last value shown and `shown` the
      values handed to `set`, in order. */
  class ProgressAdapter {
    const res: real
    var lastValue: real
    var shown: seq<real>

    constructor(resolution: real)
      ensures res == resolution && lastValue == DblMin && shown == []
    {
      res := resolution;
      lastValue := DblMin;
      shown := [];
    }

    /** `update`: show `value` only when it leaves the resolution band
        around the last value shown. */
    method Update(value: real)
      modifies this
      ensures !IsAbout(value, old(lastValue), res) ==> shown == old(shown) + [value] && lastValue == value
      ensures IsAbout(value, old(lastValue), res) ==> shown == old(shown) && lastValue == old(lastValue)
    {
      if !IsAbout(value, lastValue, res) {
        shown := shown + [value];
        lastValue := value;
      }
    }

    /** `start` is `update(0.0)`. */
    method Start()
      modifies this
      ensures !IsAbout(0.0, old(lastValue), res) ==> shown == old(shown) + [0.0] && lastValue == 0.0
      ensures IsAbout(0.0, old(lastValue), res) ==> shown == old(shown) && lastValue == old(lastValue)
    {
      Update(0.0);
    }

    /** `finish` is `update(1.0)`. */
    method Finish()
      modifies this
      ensures !IsAbout(1.0, old(lastValue), res) ==> shown == old(shown) + [1.0] && lastValue == 1.0
      ensures IsAbout(1.0, old(lastValue), res) ==> shown == old(shown) && lastValue == old(lastValue)
    {
      Update(1.0);
    }
  }

  /** A fresh adapter shows its start exactly when its resolution is below
      the initial last value, the smallest positive double. */
  method FreshStart(resolution: real) returns (shown: seq<real>)
    ensures resolution >= DblMin ==> shown == []
    ensures resolution < DblMin ==> shown == [0.0]
  {
    var a := new ProgressAdapter(resolution);
    a.Start();
    shown := a.shown;
  }

  /** `composed_progress_adapter` over two distinct adapters. */
  class ComposedAdapter {
    const a1: ProgressAdapter
    const a2: ProgressAdapter

    constructor(first: ProgressAdapter, second: ProgressAdapter)
      ensures a1 == first && a2 == second
    {
      a1 := first;
      a2 := second;
    }

    /** The finer of the two resolutions. */
    function Resolution(): (r: real)
      ensures r <= a1.res && r <= a2.res
      ensures r == a1.res || r == a2.res
    {
      if a1.res <= a2.res then a1.res else a2.res
    }

    /** Every update goes to both adapters, each applying its own band. */
    method Update(value: real)
      requires a1 != a2
      modifies a1, a2
      ensures !IsAbout(value, old(a1.lastValue), a1.res) ==> a1.shown == old(a1.shown) + [value] && a1.lastValue == value
      ensures IsAbout(value, old(a1.lastValue), a1.res) ==> a1.shown == old(a1.shown) && a1.lastValue == old(a1.lastValue)
      ensures !IsAbout(value, old(a2.lastValue), a2.res) ==> a2.shown == old(a2.shown) + [value] && a2.lastValue == value
      ensures IsAbout(value, old(a2.lastValue), a2.res) ==> a2.shown == old(a2.shown) && a2.lastValue == old(a2.lastValue)
    {
      a1.Update(value);
      a2.Update(value);
    }
  }

  /** A `progress_tracker`: the adapter it reports to and the sub-range
      `[from, to]` of the whole task it stands for. */
  class ProgressTracker {
    const adapter: ProgressAdapter
    const from: real
    const to: real

    /** The public constructor spans the whole task and starts the adapter. */
    constructor(a: ProgressAdapter)
      modifies a
      ensures adapter == a && from == 0.0 && to == 1.0
      ensures !IsAbout(0.0, old(a.lastValue), a.res) ==> a.shown == old(a.shown) + [0.0] && a.lastValue == 0.0
      ensures IsAbout(0.0, old(a.lastValue), a.res) ==> a.shown == old(a.shown) && a.lastValue == old(a.lastValue)
    {
      adapter := a;
      from := 0.0;
      to := 1.0;
      new;
      a.Start();
    }

    /** The constructor behind `progress_stepper::sub`: same adapter, a
        narrower range. */
    constructor Sub(t: ProgressTracker, lo: real, hi: real)
      ensures adapter == t.adapter && from == lo && to == hi
    {
      adapter := t.adapter;
      from := lo;
      to := hi;
    }

    /** `set_at` (release build): forward the position to the adapter. */
    method SetAt(x: real)
      modifies adapter
      ensures !IsAbout(x, old(adapter.lastValue), adapter.res) ==> adapter.shown == old(adapter.shown) + [x] && adapter.lastValue == x
      ensures IsAbout(x, old(adapter.lastValue), adapter.res) ==> adapter.shown == old(adapter.shown) && adapter.lastValue == old(adapter.lastValue)
    {
      adapter.Update(x);
    }
  }

  /** `i + 1` either stays in the current block of `e` or starts the next. */
  lemma NextModDiv(i: nat, e: nat)
    requires e > 1
    ensures i % e < e - 1 ==> (i + 1) % e == i % e + 1 && (i + 1) / e == i / e
    ensures i % e == e - 1 ==> (i + 1) % e == 0 && (i + 1) / e == i / e + 1
  {
    var q, r := i / e, i % e;
    if r < e - 1 {
      DivModUnique(i + 1, e, q, r + 1);
    } else {
      DivModUnique(i + 1, e, q + 1, 0);
    }
  }

  /** A `progress_stepper`: `steps` equal increments over the tracker's
      range, reported to the tracker on every `every`-th increment (every
      increment when `every <= 1`).  `sent` holds the positions passed to
      the tracker so far. */
  class ProgressStepper {
    const t: ProgressTracker
    const steps: nat
    const inc: real
    const every: int
    var evcnt: int
    var i: nat
    ghost var sent: seq<real>

    ghost predicate Valid()
      reads this
    {
      (every > 1 ==> evcnt == every - i % every && |sent| == i / every)
      && (every <= 1 ==> |sent| == i)
    }

    /** `section(steps)`: the increment splits the range evenly, and
        `every` is the resolution measured in increments, rounded.  A range
        of zero steps or zero width would divide by zero. */
    constructor(tracker: ProgressTracker, n: nat)
      requires n > 0 && tracker.to != tracker.from
      ensures Valid()
      ensures t == tracker && steps == n && i == 0 && sent == []
      ensures inc == (tracker.to - tracker.from) / n as real
      ensures every == Round(tracker.adapter.res / inc).Floor && evcnt == every
    {
      t := tracker;
      steps := n;
      inc := (tracker.to - tracker.from) / n as real;
      every := Round(tracker.adapter.res / ((tracker.to - tracker.from) / n as real)).Floor;
      evcnt := Round(tracker.adapter.res / ((tracker.to - tracker.from) / n as real)).Floor;
      i := 0;
      sent := [];
    }

    /** `at(n)`: the position after `n` increments. */
    function At(n: nat): real
      reads this, t
    {
      t.from + inc * n as real
    }

    /** The stepper starts at the tracker's `from` and its last step lands
        on the tracker's `to`. */
    lemma AtEnds()
      requires steps > 0 && inc == (t.to - t.from) / steps as real
      ensures At(0) == t.from
      ensures At(steps) == t.to
    {
      assert inc * steps as real == t.to - t.from;
    }

    /** `operator++`: advance, then report the new position through
        `skip_increment` (once every `every` increments) or
        `fast_increment` (always). */
    method Increment()
      requires Valid()
      modifies this, t.adapter
      ensures Valid()
      ensures i == old(i) + 1
      ensures every > 1 && i % every != 0 ==> sent == old(sent) && unchanged(t.adapter)
      ensures every <= 1 || i % every == 0 ==> sent == old(sent) + [At(i)]
      ensures every <= 1 || i % every == 0 ==>
                (!IsAbout(At(i), old(t.adapter.lastValue), t.adapter.res) ==> t.adapter.shown == old(t.adapter.shown) + [At(i)])
    {
      ghost var k := i;
      if every > 1 {
        NextModDiv(k, every);
      }
      i := i + 1;
      if every > 1 {
        SkipIncrement(k);
      } else {
        var x := At(i);
        t.SetAt(x);
        sent := sent + [x];
        assert At(i) == x;
      }
    }

    /** `skip_increment`: count down, and report on reaching zero. */
    method SkipIncrement(ghost k: nat)
      requires every > 1 && i == k + 1
      requires evcnt == every - k % every && |sent| == k / every
      requires k % every < every - 1 ==> i % every == k % every + 1 && i / every == k / every
      requires k % every == every - 1 ==> i % every == 0 && i / every == k / every + 1
      modifies this, t.adapter
      ensures Valid()
      ensures i == old(i)
      ensures i % every != 0 ==> sent == old(sent) && unchanged(t.adapter)
      ensures i % every == 0 ==> sent == old(sent) + [At(i)]
      ensures i % every == 0 ==>
                (!IsAbout(At(i), old(t.adapter.lastValue), t.adapter.res) ==> t.adapter.shown == old(t.adapter.shown) + [At(i)])
    {
      ghost var r := k % every;
      assert 0 <= r < every;
      evcnt := evcnt - 1;
      if evcnt <= 0 {
        assert r == every - 1 && i % every == 0;
        var x := At(i);
        t.SetAt(x);
        sent := sent + [x];
        evcnt := every;
        assert At(i) == x;
      } else {
        assert r < every - 1 && i % every == r + 1;
      }
    }

    /** `sub(k)`: a tracker for the next `k` increments. */
    method Sub(k: nat) returns (r: ProgressTracker)
      ensures fresh(r)
      ensures r.adapter == t.adapter && r.from == At(i) && r.to == At(i + k)
    {
      r := new ProgressTracker.Sub(t, At(i), At(i + k));
    }

    /** The destructor reports the end of the range, whatever was skipped. */
    method Destroy()
      modifies this, t.adapter
      ensures sent == old(sent) + [At(steps)]
      ensures !IsAbout(At(steps), old(t.adapter.lastValue), t.adapter.res) ==> t.adapter.shown == old(t.adapter.shown) + [At(steps)]
    {
      t.SetAt(At(steps));
      sent := sent + [At(steps)];
    }
  }

  /** `uendl`: a bare line feed, whatever the platform. */
  function Uendl(out: string): (r: string)
    ensures |r| == |out| + 1 && r[..|out|] == out && r[|out|] == '\n'
  {
    out + "\n"
  }

  /** `QChar::isSpace`: the ASCII blanks and the Unicode space, line and
      paragraph separators. */
  predicate IsSpace(c: char)
  {
    c == ' ' || c == '\t' || c == '\n' || c == '\U{000B}' || c == '\U{000C}' || c == '\r'
    || c == '\U{0085}' || c == '\U{00A0}' || c == '\U{1680}' || ('\U{2000}' <= c <= '\U{200A}')
    || c == '\U{2028}' || c == '\U{2029}' || c == '\U{202F}' || c == '\U{205F}' || c == '\U{3000}'
  }

  /** `ws_or_endl`: from `start`, skip white space and line breaks; the
      result is the position of the first other character, left unread.
      Line breaks are white space for `skipWhiteSpace`, so the character
      read after it is never a line break: the source's outer loop always
      seeks back and returns in its first pass, and this is that pass. */
  method WsOrEndl(s: string, start: nat) returns (pos: nat)
    requires start <= |s|
    ensures start <= pos <= |s|
    ensures forall k :: start <= k < pos ==> IsSpace(s[k])
    ensures pos < |s| ==> !IsSpace(s[pos])
  {
    pos := start;
    while pos < |s| && IsSpace(s[pos])
      invariant start <= pos <= |s|
      invariant forall k :: start <= k < pos ==> IsSpace(s[k])
    {
      pos := pos + 1;
    }
  }

  const Nul: char := '\0'

  /** The line `trim_eol` leaves in the first `len` characters of `s`: a
      final line feed becomes NUL, and so does a carriage return right
      before it. */
  function TrimmedEol(s: seq<char>, len: nat): (r: seq<char>)
    requires 1 <= len <= |s|
    ensures |r| == |s|
    ensures forall k :: 0 <= k < |s| && k != len - 1 && k != len - 2 ==> r[k] == s[k]
    ensures s[len - 1] != '\n' ==> r == s
    ensures s[len - 1] == '\n' ==> r[len - 1] == Nul
    ensures len >= 2 ==> (r[len - 2] == Nul <==> s[len - 2] == Nul || (s[len - 1] == '\n' && s[len - 2] == '\r'))
  {
    if s[len - 1] != '\n' then s
    else if len >= 2 && s[len - 2] == '\r' then s[len - 1 := Nul][len - 2 := Nul]
    else s[len - 1 := Nul]
  }

  /** `trim_eol` only reads inside the buffer when a line ending in a line
      feed has at least one more character before it. */
  predicate TrimEolInBounds(s: seq<char>, len: int)
  {
    1 <= len <= |s| && (s[len - 1] == '\n' ==> len - 2 >= 0)
  }

  /** `trim_eol` as written: after a final line feed it inspects the
      character before it unconditionally. */
  method TrimEolAsWritten(line: array<char>, len: int)
    requires TrimEolInBounds(line[..], len)
    modifies line
    ensures line[..] == TrimmedEol(old(line[..]), len)
  {
    var c := len - 1;
    if line[c] == '\n' {
      line[c] := Nul;
      c := c - 1;
      if line[c] == '\r' {
        line[c] := Nul;
      }
    }
  }

  /** `readLine` returns length 1 for an empty line, "\n" alone, and
      `run_cmd` passes that length on: `trim_eol` then reads `line[-1]`. */
  lemma EmptyLineReadsBeforeBuffer(line: seq<char>)
    requires |line| >= 1 && line[0] == '\n'
    ensures !TrimEolInBounds(line, 1)
  {
  }

  /** `trim_eol` with the character before the line feed inspected only
      when there is one. */
  method TrimEol(line: array<char>, len: int)
    requires 1 <= len <= line.Length
    modifies line
    ensures line[..] == TrimmedEol(old(line[..]), len)
  {
    var c := len - 1;
    if line[c] == '\n' {
      line[c] := Nul;
      if c >= 1 {
        c := c - 1;
        if line[c] == '\r' {
          line[c] := Nul;
        }
      }
    }
  }

  /** The part of a `run_config` that `run_sh` touches. */
  datatype RunConfig = RunConfig(cmd: string, prompt: string, args: seq<string>, wdir: string)

  /** `QFileInfo::fileName`: the text after the last `/`. */
  function FileName(path: string): (r: string)
    ensures |r| <= |path| && r == path[|path| - |r|..]
    ensures '/' !in r
    ensures |r| < |path| ==> path[|path| - |r| - 1] == '/'
  {
    if |path| == 0 then ""
    else if path[|path| - 1] == '/' then ""
    else FileName(path[..|path| - 1]) + [path[|path| - 1]]
  }

  /** The `cmd` setter: it also renames the prompt after the program. */
  function SetCmd(cfg: RunConfig, value: string): (r: RunConfig)
    ensures r.cmd == value && r.prompt == FileName(value)
    ensures r.args == cfg.args && r.wdir == cfg.wdir
  {
    cfg.(cmd := value, prompt := FileName(value))
  }

  /** `run_sh`: the configuration handed to `run_cmd`, which runs `bash`
      with the original command as its first argument and keeps the
      original prompt. */
  function RunSh(cfg: RunConfig, bash: string): (r: RunConfig)
    ensures r.cmd == bash
    ensures r.prompt == cfg.prompt
    ensures r.args == [cfg.cmd] + cfg.args
    ensures r.wdir == cfg.wdir
  {
    var withArg := cfg.(args := [cfg.cmd] + cfg.args);
    SetCmd(withArg, bash).(prompt := cfg.prompt)
  }

  /** The shell invocation loses nothing: dropping the first argument and
      making it the command again gives back the original configuration,
      up to the prompt the setter recomputes. */
  lemma RunShRecoverable(cfg: RunConfig, bash: string)
    ensures var r := RunSh(cfg, bash); r.args[0] == cfg.cmd && r.args[1..] == cfg.args
    ensures var r := RunSh(cfg, bash); r.(cmd := r.args[0], args := r.args[1..]) == cfg
  {
  }
}
