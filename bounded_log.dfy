/**
 * The bounded log buffer shared by both log captures: a `VecDeque` to which a
 * line is pushed at the back, after which the front is popped once if the
 * length exceeds the bound.
 */
module BoundedLog {

  /** The buffer after `push_back(line)` followed by the single conditional `pop_front`. */
  function Pushed(logs: seq<string>, line: string, maxLogs: nat): seq<string> {
    var grown := logs + [line];
    if |grown| > maxLogs then grown[1..] else grown
  }

  /** A buffer within its bound stays within it. */
  lemma PushedKeepsBound(logs: seq<string>, line: string, maxLogs: nat)
    requires |logs| <= maxLogs
    ensures |Pushed(logs, line, maxLogs)| <= maxLogs
  {
  }

  /** With room for at least one line, the new line is the newest (last) entry. */
  lemma PushedEndsWithLine(logs: seq<string>, line: string, maxLogs: nat)
    requires maxLogs >= 1 && |logs| <= maxLogs
    ensures |Pushed(logs, line, maxLogs)| >= 1
    ensures Pushed(logs, line, maxLogs)[|Pushed(logs, line, maxLogs)| - 1] == line
  {
  }

  /**
   * Nothing but the single oldest entry is evicted, and the survivors keep
   * their order: the result is the old buffer with at most its first entry
   * dropped, followed by the new line.
   */
  lemma PushedEvictsAtMostOldest(logs: seq<string>, line: string, maxLogs: nat)
    requires maxLogs >= 1 && |logs| <= maxLogs
    ensures var r := Pushed(logs, line, maxLogs);
            r == logs + [line] || (|logs| >= 1 && r == logs[1..] + [line])
    ensures |logs| < maxLogs ==> Pushed(logs, line, maxLogs) == logs + [line]
    ensures |logs| == maxLogs ==> Pushed(logs, line, maxLogs) == logs[1..] + [line]
  {
    if |logs| + 1 > maxLogs {
      assert (logs + [line])[1..] == logs[1..] + [line];
    }
  }

  /** With a bound of zero nothing is kept, not even the line just pushed. */
  lemma PushedZeroBound(line: string)
    ensures Pushed([], line, 0) == []
  {
  }

  /** The buffer after pushing `lines` one at a time. */
  function PushAll(logs: seq<string>, lines: seq<string>, maxLogs: nat): seq<string>
    decreases |lines|
  {
    if lines == [] then logs else PushAll(Pushed(logs, lines[0], maxLogs), lines[1..], maxLogs)
  }

  /** The last `n` entries of `s` (all of `s` if it is shorter). */
  function LastN(s: seq<string>, n: nat): seq<string> {
    if |s| <= n then s else s[|s| - n..]
  }

  /**
   * Pushing lines one at a time into a buffer within its bound keeps the most
   * recent `maxLogs` lines of everything pushed, oldest first.
   */
  lemma {:induction false} PushAllKeepsMostRecent(logs: seq<string>, lines: seq<string>, maxLogs: nat)
    requires |logs| <= maxLogs
    ensures PushAll(logs, lines, maxLogs) == LastN(logs + lines, maxLogs)
    decreases |lines|
  {
    if lines == [] {
      assert logs + lines == logs;
    } else {
      var next := Pushed(logs, lines[0], maxLogs);
      PushedKeepsBound(logs, lines[0], maxLogs);
      PushAllKeepsMostRecent(next, lines[1..], maxLogs);
      PushedIsLastN(logs, lines[0], maxLogs);
      assert logs + lines == (logs + [lines[0]]) + lines[1..];
      LastNAppend(logs + [lines[0]], lines[1..], maxLogs);
    }
  }

  /** One push into a buffer within its bound keeps the last `maxLogs` entries. */
  lemma PushedIsLastN(logs: seq<string>, line: string, maxLogs: nat)
    requires |logs| <= maxLogs
    ensures Pushed(logs, line, maxLogs) == LastN(logs + [line], maxLogs)
  {
  }

  /** Keeping the last `n` before appending more changes nothing about the last `n` after. */
  lemma LastNAppend(s: seq<string>, t: seq<string>, n: nat)
    ensures LastN(LastN(s, n) + t, n) == LastN(s + t, n)
  {
    if |s| > n {
      var k := |s| - n;
      DropAppend(s, t, k, |t|);
      assert (s[k..] + t)[0..] == s[k..] + t;
    }
  }

  /** Dropping from a suffix followed by more is dropping from the whole. */
  lemma DropAppend<T>(s: seq<T>, t: seq<T>, k: nat, j: nat)
    requires k <= |s| && j <= |s| - k + |t|
    ensures (s[k..] + t)[j..] == (s + t)[k + j..]
  {
    assert s[k..] + t == (s + t)[k..];
  }
}
