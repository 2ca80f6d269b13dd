/** Command IDs: a task's ID, the text "-cmd-" and a running number; and how the queue gets the task's ID back. */
module CommandIds {
  // The decimal digits of a number, as %d prints it.
  function Itoa(n: nat): (s: string)
    ensures s != []
    ensures forall i :: 0 <= i < |s| ==> '0' <= s[i] <= '9'
  {
    if n < 10 then [Digit(n)] else Itoa(n / 10) + [Digit(n % 10)]
  }

  function Digit(d: nat): (c: char)
    requires d < 10
    ensures '0' <= c <= '9'
  {
    "0123456789"[d]
  }

  lemma DigitInjective(d: nat, e: nat)
    requires d < 10 && e < 10 && Digit(d) == Digit(e)
    ensures d == e
  {
  }

  /** Different numbers have different digits. */
  lemma {:induction false} ItoaInjective(m: nat, n: nat)
    requires Itoa(m) == Itoa(n)
    ensures m == n
    decreases m
  {
    var a, b := Itoa(m), Itoa(n);
    assert a[|a| - 1] == b[|b| - 1];
    if m < 10 {
      assert |Itoa(n)| == 1;
      assert n < 10;
      DigitInjective(m, n);
    } else {
      assert |Itoa(m / 10)| >= 1;
      assert n >= 10;
      DigitInjective(m % 10, n % 10);
      assert a[..|a| - 1] == Itoa(m / 10) && b[..|b| - 1] == Itoa(n / 10);
      ItoaInjective(m / 10, n / 10);
    }
  }

  // The number that decimal digits stand for.
  function Decimal(s: string): int {
    if s == [] then 0 else 10 * Decimal(s[..|s| - 1]) + (s[|s| - 1] as int - '0' as int)
  }

  /** The digits of a number stand for it, without leading zeros. */
  lemma {:induction false} ItoaIsDecimal(n: nat)
    ensures Decimal(Itoa(n)) == n && (|Itoa(n)| > 1 ==> Itoa(n)[0] != '0')
    decreases n
  {
    var s := Itoa(n);
    if n < 10 {
      assert s[..0] == [] && Digit(n) as int == '0' as int + n;
    } else {
      ItoaIsDecimal(n / 10);
      assert s[..|s| - 1] == Itoa(n / 10) && Digit(n % 10) as int == '0' as int + n % 10;
      assert s[0] == Itoa(n / 10)[0];
      if |Itoa(n / 10)| == 1 { assert n / 10 < 10 && Digit(n / 10) != '0'; }
    }
  }

  /** A command ID is the task's ID, then -cmd- and the number. */
  lemma CommandIdReads(task: string, i: nat)
    ensures var id := CommandId(task, i);
            && |id| > |task| + 5 && id[..|task|] == task && id[|task|..|task| + 5] == "-cmd-"
            && Decimal(id[|task| + 5..]) == i
  {
    var id := CommandId(task, i);
    ItoaIsDecimal(i);
    assert id == task + ("-cmd-" + Itoa(i));
    assert id[|task|..|task| + 5] == "-cmd-" && id[|task| + 5..] == Itoa(i);
  }

  function CommandId(task: string, i: nat): string {
    task + "-cmd-" + Itoa(i)
  }

  /** No two (task, number) pairs share a command ID, whatever the task IDs contain. */
  lemma CommandIdInjective(t: string, i: nat, u: string, j: nat)
    requires CommandId(t, i) == CommandId(u, j)
    ensures t == u && i == j
  {
    var s, di, dj := CommandId(t, i), Itoa(i), Itoa(j);
    var n := |s|;
    assert s == (t + "-cmd") + ("-" + di) == (u + "-cmd") + ("-" + dj);
    assert s[n - |di| - 1] == '-' && s[n - |dj| - 1] == '-';
    assert |di| == |dj|;
    assert s[n - |di|..] == di && s[n - |dj|..] == dj;
    ItoaInjective(i, j);
    assert s[..n - |di| - 5] == t && s[..n - |dj| - 5] == u;
  }

  // The part of an ID before its first '-', or all of it.
  function ExtractTaskId(id: string): string {
    if id == [] || id[0] == '-' then [] else [id[0]] + ExtractTaskId(id[1..])
  }

  lemma {:induction false} ExtractIsPrefix(id: string, k: nat)
    requires k <= |id| && '-' !in id[..k] && (k < |id| ==> id[k] == '-')
    ensures ExtractTaskId(id) == id[..k]
    decreases id
  {
    if k > 0 {
      assert id[0] == id[..k][0] && id[..k] == [id[0]] + id[1..][..k - 1];
      ExtractIsPrefix(id[1..], k - 1);
    }
  }

  /** The queue's scan for the first '-'. */
  method ExtractTaskIdByScan(id: string) returns (task: string)
    ensures task == ExtractTaskId(id)
  {
    for i := 0 to |id|
      invariant '-' !in id[..i]
    {
      if id[i] == '-' {
        ExtractIsPrefix(id, i);
        return id[..i];
      }
      assert id[..i + 1] == id[..i] + [id[i]];
    }
    ExtractIsPrefix(id, |id|);
    assert id[..|id|] == id;
    return id;
  }

  /** From a command ID the scan recovers the task's ID up to its first '-': all of it exactly when it has none. */
  lemma ExtractFromCommandId(task: string, i: nat)
    ensures ExtractTaskId(CommandId(task, i)) == ExtractTaskId(task)
    ensures ExtractTaskId(CommandId(task, i)) == task <==> '-' !in task
  {
    assert CommandId(task, i) == task + ("-cmd-" + Itoa(i));
    hide CommandId, Itoa;
    ExtractStops(task, "-cmd-" + Itoa(i));
    ExtractShape(task);
    hide ExtractTaskId;
    WholeIff(task, |ExtractTaskId(task)|);
  }

  lemma {:induction false} ExtractStops(task: string, tail: string)
    requires tail != [] && tail[0] == '-'
    ensures ExtractTaskId(task + tail) == ExtractTaskId(task)
    decreases task
  {
    if task == [] {
      assert task + tail == tail;
    } else {
      assert (task + tail)[0] == task[0] && (task + tail)[1..] == task[1..] + tail;
      ExtractStops(task[1..], tail);
    }
  }

  lemma WholeIff(task: string, k: nat)
    requires k <= |task| && '-' !in task[..k] && (k < |task| ==> task[k] == '-')
    ensures task[..k] == task <==> '-' !in task
  {
    if k == |task| {
      assert task[..k] == task;
    }
  }

  lemma {:induction false} ExtractShape(id: string)
    ensures var k := |ExtractTaskId(id)|;
            k <= |id| && ExtractTaskId(id) == id[..k] && '-' !in id[..k] && (k < |id| ==> id[k] == '-')
    decreases id
  {
    if id != [] && id[0] != '-' {
      ExtractShape(id[1..]);
      var k := |ExtractTaskId(id)|;
      assert id[..k] == [id[0]] + id[1..][..k - 1];
    }
  }
}
