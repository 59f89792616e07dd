/** The bounded capture of a shell command's output streams. */
module ShellOutput {
  import opened Common
  import opened Utf8

  const MAX_STREAM_BYTES: nat := 256 * 1024

  /** What one delta adds to a stream that already holds held bytes. */
  function Accept(held: nat, delta: Bytes): (accepted: Bytes)
    ensures Valid(accepted)
    ensures held <= MAX_STREAM_BYTES ==> held + |accepted| <= MAX_STREAM_BYTES
  {
    var clean := ToValid(delta, false);
    if held >= MAX_STREAM_BYTES then []
    else if |clean| <= MAX_STREAM_BYTES - held then clean
    else clean[..Cut(clean, MAX_STREAM_BYTES - held)]
  }

  predicate Loses(held: nat, delta: Bytes) {
    Accept(held, delta) != ToValid(delta, false)
  }

  /**
   Appends to the text of a stream the longest valid prefix of the repaired delta that still fits, and says
   whether anything was lost.
   */
  method AppendBounded(data: Bytes, delta: Bytes) returns (longer: Bytes, accepted: Bytes, truncated: bool)
    ensures accepted == Accept(|data|, delta)
    ensures longer == data + accepted
    ensures |data| <= MAX_STREAM_BYTES ==> |longer| <= MAX_STREAM_BYTES
    ensures Valid(data) ==> Valid(longer)
    ensures truncated <==> accepted != ToValid(delta, false)
    ensures accepted <= ToValid(delta, false)
    ensures forall u :: u <= ToValid(delta, false) && |accepted| < |u| && |data| + |u| <= MAX_STREAM_BYTES ==> !Valid(u)
    ensures truncated ==> |longer| + 3 >= MAX_STREAM_BYTES
  {
    var clean := ToValid(delta, false);
    if clean == [] {
      return data, [], false;
    }
    var remaining := MAX_STREAM_BYTES - |data|;
    if remaining <= 0 {
      return data, [], true;
    }
    accepted := clean;
    truncated := false;
    if |accepted| > remaining {
      accepted := TrimToValid(clean, remaining);
      truncated := true;
    }
    if Valid(data) {
      ValidConcat(data, accepted);
    }
    longer := data + accepted;
  }

  /** Both captured streams of one command and the flag they share. */
  datatype Capture = Capture(stdout: Bytes, stderr: Bytes, truncated: bool)

  datatype Delta = OnStdout(data: Bytes) | OnStderr(data: Bytes)

  const EMPTY := Capture([], [], false)

  function Absorb(c: Capture, d: Delta): Capture {
    match d
    case OnStdout(data) =>
      Capture(c.stdout + Accept(|c.stdout|, data), c.stderr, c.truncated || Loses(|c.stdout|, data))
    case OnStderr(data) =>
      Capture(c.stdout, c.stderr + Accept(|c.stderr|, data), c.truncated || Loses(|c.stderr|, data))
  }

  /** The part of a delta that was kept, on the same stream. */
  function Kept(c: Capture, d: Delta): Delta {
    match d
    case OnStdout(data) => OnStdout(Accept(|c.stdout|, data))
    case OnStderr(data) => OnStderr(Accept(|c.stderr|, data))
  }

  method AbsorbDelta(c: Capture, d: Delta) returns (after: Capture, kept: Delta)
    ensures after == Absorb(c, d) && kept == Kept(c, d)
  {
    match d
    case OnStdout(data) =>
      var longer, accepted, lost := AppendBounded(c.stdout, data);
      after, kept := c.(stdout := longer, truncated := c.truncated || lost), OnStdout(accepted);
    case OnStderr(data) =>
      var longer, accepted, lost := AppendBounded(c.stderr, data);
      after, kept := c.(stderr := longer, truncated := c.truncated || lost), OnStderr(accepted);
  }

  function AbsorbAll(ds: seq<Delta>): Capture {
    if ds == [] then EMPTY else Absorb(AbsorbAll(ds[..|ds| - 1]), ds[|ds| - 1])
  }

  /** The repaired text a sequence of deltas carries on each stream. */
  function Sent(ds: seq<Delta>): (r: (Bytes, Bytes)) {
    if ds == [] then ([], [])
    else
      var (out, err) := Sent(ds[..|ds| - 1]);
      match ds[|ds| - 1]
      case OnStdout(data) => (out + ToValid(data, false), err)
      case OnStderr(data) => (out, err + ToValid(data, false))
  }

  /**
   Whatever deltas come, the streams stay valid and bounded, and the flag tells exactly whether anything is missing.
   */
  lemma {:induction false} CaptureConserves(ds: seq<Delta>)
    ensures var c := AbsorbAll(ds);
            && Valid(c.stdout) && Valid(c.stderr)
            && |c.stdout| <= MAX_STREAM_BYTES && |c.stderr| <= MAX_STREAM_BYTES
            && |c.stdout| <= |Sent(ds).0| && |c.stderr| <= |Sent(ds).1|
            && (!c.truncated <==> c.stdout == Sent(ds).0 && c.stderr == Sent(ds).1)
  {
    if ds != [] {
      var before, last := ds[..|ds| - 1], ds[|ds| - 1];
      var c := AbsorbAll(before);
      CaptureConserves(before);
      match last
      case OnStdout(data) => AcceptConserves(c.stdout, Sent(before).0, data);
      case OnStderr(data) => AcceptConserves(c.stderr, Sent(before).1, data);
    }
  }

  lemma AcceptConserves(held: Bytes, sent: Bytes, delta: Bytes)
    requires Valid(held) && |held| <= MAX_STREAM_BYTES && |held| <= |sent|
    ensures var after, all := held + Accept(|held|, delta), sent + ToValid(delta, false);
            && Valid(after) && |after| <= MAX_STREAM_BYTES && |after| <= |all|
            && (after == all <==> held == sent && !Loses(|held|, delta))
  {
    var clean, accepted := ToValid(delta, false), Accept(|held|, delta);
    ValidConcat(held, accepted);
    assert accepted <= clean;
    if held + accepted == sent + clean {
      assert |held| == |sent| && |accepted| == |clean|;
      assert held == (held + accepted)[..|held|] == (sent + clean)[..|sent|] == sent;
    }
  }
}
