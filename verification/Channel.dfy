/** Reading an SSH channel (RFC 4254 sections 5.3 and 6.10): the two message loops of
    backend/src/deploy.rs. */
module Channel {

  datatype Msg =
    | Data(text: string)
    | ExtendedData(text: string)
    | ExitStatus(status: nat)
    | Eof
    | Close
    | Other

  /** `exit_status as i32` for a 32-bit unsigned status. */
  function AsI32(status: nat): int {
    var s := status % 0x1_0000_0000;
    if s >= 0x8000_0000 then s - 0x1_0000_0000 else s
  }

  /** The messages a loop gets to see: up to the first Close, or all of them if the channel ends. */
  function Seen(msgs: seq<Msg>): seq<Msg> {
    if msgs == [] || msgs[0] == Close then [] else [msgs[0]] + Seen(msgs[1..])
  }

  /** The last exit status among `msgs`, -1 when there is none. */
  function LastStatus(msgs: seq<Msg>): int {
    if msgs == [] then -1
    else if msgs[|msgs| - 1].ExitStatus? then AsI32(msgs[|msgs| - 1].status)
    else LastStatus(msgs[..|msgs| - 1])
  }

  function TextOf(m: Msg, stdout: bool): string {
    match m
    case Data(t) => if stdout then t else ""
    case ExtendedData(t) => t
    case _ => ""
  }

  function Output(msgs: seq<Msg>, stdout: bool): string {
    if msgs == [] then "" else Output(msgs[..|msgs| - 1], stdout) + TextOf(msgs[|msgs| - 1], stdout)
  }

  function ExitCode(msgs: seq<Msg>): int { LastStatus(Seen(msgs)) }

  lemma {:induction false} SeenPrefix(msgs: seq<Msg>, k: nat)
    requires k <= |msgs| && forall i :: 0 <= i < k ==> msgs[i] != Close
    ensures k < |msgs| && msgs[k] == Close ==> Seen(msgs) == msgs[..k]
    ensures k == |msgs| ==> Seen(msgs) == msgs
  {
    if k == 0 {
    } else {
      SeenPrefix(msgs[1..], k - 1);
      if k < |msgs| { assert msgs[..k] == [msgs[0]] + msgs[1..][..k - 1]; }
    }
  }

  /** The loop of `exec_command`: standard output and error are collected. */
  method ReadExec(msgs: seq<Msg>) returns (code: int, output: string)
    ensures code == ExitCode(msgs) && output == Output(Seen(msgs), true)
  {
    code, output := -1, "";
    var i := 0;
    while i < |msgs|
      invariant 0 <= i <= |msgs| && forall j :: 0 <= j < i ==> msgs[j] != Close
      invariant code == LastStatus(msgs[..i]) && output == Output(msgs[..i], true)
    {
      assert msgs[..i + 1][..i] == msgs[..i];
      match msgs[i] {
        case Data(text) => output := output + text;
        case ExtendedData(text) => output := output + text;
        case ExitStatus(status) => code := AsI32(status);
        case Close => break;
        case _ =>
      }
      i := i + 1;
    }
    SeenPrefix(msgs, i);
    assert msgs[..|msgs|] == msgs;
  }

  /** The loop of `write_remote_file`: only standard error is collected. */
  method ReadUpload(msgs: seq<Msg>) returns (code: int, stderr: string)
    ensures code == ExitCode(msgs) && stderr == Output(Seen(msgs), false)
  {
    code, stderr := -1, "";
    var i := 0;
    while i < |msgs|
      invariant 0 <= i <= |msgs| && forall j :: 0 <= j < i ==> msgs[j] != Close
      invariant code == LastStatus(msgs[..i]) && stderr == Output(msgs[..i], false)
    {
      assert msgs[..i + 1][..i] == msgs[..i];
      match msgs[i] {
        case ExtendedData(text) => stderr := stderr + text;
        case ExitStatus(status) => code := AsI32(status);
        case Close => break;
        case _ =>
      }
      i := i + 1;
    }
    SeenPrefix(msgs, i);
    assert msgs[..|msgs|] == msgs;
  }

  function WithoutEof(msgs: seq<Msg>): seq<Msg> {
    if msgs == [] then [] else
      WithoutEof(msgs[..|msgs| - 1]) + if msgs[|msgs| - 1] == Eof then [] else [msgs[|msgs| - 1]]
  }

  lemma {:induction false} EofIsSilent(msgs: seq<Msg>, stdout: bool)
    ensures LastStatus(WithoutEof(msgs)) == LastStatus(msgs)
    ensures Output(WithoutEof(msgs), stdout) == Output(msgs, stdout)
  {
    if msgs == [] {
    } else {
      var p, m := msgs[..|msgs| - 1], msgs[|msgs| - 1];
      EofIsSilent(p, stdout);
      var w := WithoutEof(msgs);
      if m != Eof {
        assert w[..|w| - 1] == WithoutEof(p) && w[|w| - 1] == m;
      } else {
        assert w == WithoutEof(p);
        assert Output(p, stdout) + "" == Output(p, stdout);
      }
    }
  }

  /** What is collected: the texts in the order of arrival, standard output only where it is wanted. */
  lemma {:induction false} OutputParts(a: seq<Msg>, b: seq<Msg>, text: string, stdout: bool)
    ensures Output(a + b, stdout) == Output(a, stdout) + Output(b, stdout)
    ensures Output([Data(text)], stdout) == (if stdout then text else "")
    ensures Output([ExtendedData(text)], stdout) == text
  {
    assert [Data(text)][..0] == [] && [ExtendedData(text)][..0] == [];
    if b == [] {
      assert a + b == a;
    } else {
      var k := |b| - 1;
      OutputParts(a, b[..k], text, stdout);
      assert (a + b)[..|a + b| - 1] == a + b[..k];
    }
  }

  /** Wherever Eof arrives, before or after the exit status, the code is the one status the server
      sent before Close. */
  lemma ExitStatusKept(before: seq<Msg>, status: nat, after: seq<Msg>)
    requires Close !in before
    requires forall m :: m in after ==> m == Eof || m == Close || m.Data? || m.ExtendedData?
    ensures ExitCode(before + [ExitStatus(status)] + after) == AsI32(status)
    ensures status < 0x1_0000_0000 ==>
              ExitCode(before + [ExitStatus(status)] + after)
              == if status < 0x8000_0000 then status else status - 0x1_0000_0000
  {
    var msgs := before + [ExitStatus(status)] + after;
    var k := |before|;
    forall i | k < i < |msgs| ensures !msgs[i].ExitStatus? {
      assert msgs[i] == after[i - k - 1] && after[i - k - 1] in after;
    }
    StatusBeforeClose(msgs, k);
  }

  lemma {:induction false} StatusBeforeClose(msgs: seq<Msg>, k: nat)
    requires k < |msgs| && msgs[k].ExitStatus? && forall i :: 0 <= i < k ==> msgs[i] != Close
    requires forall i :: k < i < |msgs| ==> !msgs[i].ExitStatus?
    ensures ExitCode(msgs) == AsI32(msgs[k].status)
  {
    var n := FirstClose(msgs, k);
    SeenPrefix(msgs, n);
    LastIs(msgs[..n], k);
    assert msgs[..|msgs|] == msgs;
  }

  function FirstClose(msgs: seq<Msg>, from: nat): (n: nat)
    requires from <= |msgs|
    ensures from <= n <= |msgs| && (n < |msgs| ==> msgs[n] == Close)
    ensures forall i :: from <= i < n ==> msgs[i] != Close
    decreases |msgs| - from
  {
    if from == |msgs| || msgs[from] == Close then from else FirstClose(msgs, from + 1)
  }

  lemma {:induction false} LastIs(msgs: seq<Msg>, k: nat)
    requires k < |msgs| && msgs[k].ExitStatus?
    requires forall i :: k < i < |msgs| ==> !msgs[i].ExitStatus?
    ensures LastStatus(msgs) == AsI32(msgs[k].status)
  {
    if k < |msgs| - 1 { LastIs(msgs[..|msgs| - 1], k); }
  }
}
