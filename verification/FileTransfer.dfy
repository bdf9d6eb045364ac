/** What the two file transfer sessions share: their states, the reasons to stop, the
    thresholds, and the payloads put together again. */
module FileTransfer {
  import opened Bytes

  /** Bytes of a file. Nothing here looks into them. */
  type Content = seq<byte>

  datatype SessionState = IDLE | STARTING | IN_PROGRESS | COMPLETED | CANCELLED | FAILED | TIMED_OUT

  datatype StopReason = SERVER_STOP | CLIENT_STOP | DISCONNECTED

  const DEFAULT_CHUNK_SIZE: nat := 64 * 1024
  const DEFAULT_WINDOW_SIZE: nat := 2 * 1024 * 1024
  const MAX_ACK_THRESHOLD: nat := 1024 * 1024

  /** How many bytes the receiver lets pass between two acknowledgements: about one percent
      of the file, at least a chunk and at most a megabyte. */
  function AckThreshold(fileSize: nat, chunk: nat): (t: nat)
    ensures fileSize == 0 ==> t == 4 * chunk
    ensures fileSize > 0 ==> t <= MAX_ACK_THRESHOLD
    ensures fileSize > 0 && chunk <= MAX_ACK_THRESHOLD ==> t >= chunk
    ensures fileSize > 0 && chunk <= fileSize / 100 <= MAX_ACK_THRESHOLD ==> t == fileSize / 100
    ensures fileSize > 0 && fileSize / 100 < chunk <= MAX_ACK_THRESHOLD ==> t == chunk
    ensures fileSize > 0 && (fileSize / 100 > MAX_ACK_THRESHOLD || chunk > MAX_ACK_THRESHOLD) ==> t == MAX_ACK_THRESHOLD
    ensures chunk > 0 ==> t > 0
  {
    if fileSize == 0 then chunk * 4
    else
      var percent := fileSize / 100;
      var atLeast := if percent < chunk then chunk else percent;
      if atLeast > MAX_ACK_THRESHOLD then MAX_ACK_THRESHOLD else atLeast
  }

  /** In numbers: chunks of 64 KB, windows of 2 MB, thresholds of at most a megabyte. */
  lemma Sizes()
    ensures DEFAULT_CHUNK_SIZE == 65536 && DEFAULT_WINDOW_SIZE == 2097152
    ensures AckThreshold(0, 65536) == 262144 && AckThreshold(1_000_000, 65536) == 65536
    ensures AckThreshold(10_000_000, 65536) == 100_000 && AckThreshold(200_000_000, 65536) == 1048576
  {
  }

  function Joined(parts: seq<Content>): Content {
    if parts == [] then [] else parts[0] + Joined(parts[1..])
  }

  lemma {:induction false} JoinedSnoc(parts: seq<Content>, last: Content)
    ensures Joined(parts + [last]) == Joined(parts) + last
  {
    if parts == [] {
      assert [last][1..] == [];
    } else {
      JoinedSnoc(parts[1..], last);
      assert (parts + [last])[1..] == parts[1..] + [last];
    }
  }

  /** The acknowledgement both sides exchange: `{ack: number, bytes: n}`. */
  datatype Ack = Ack(number: nat, bytes: nat)

  function AckedBytes(acks: seq<Ack>): nat {
    if acks == [] then 0 else acks[0].bytes + AckedBytes(acks[1..])
  }

  lemma {:induction false} AckedBytesSnoc(acks: seq<Ack>, last: Ack)
    ensures AckedBytes(acks + [last]) == AckedBytes(acks) + last.bytes
  {
    if acks != [] {
      AckedBytesSnoc(acks[1..], last);
      assert (acks + [last])[1..] == acks[1..] + [last];
    }
  }

  /** Numbered one after the other in 32 bits, each for some bytes. */
  predicate Numbered(acks: seq<Ack>) {
    forall k :: 0 <= k < |acks| ==> acks[k].bytes > 0 && acks[k].number == (k + 1) % TWO32
  }

  lemma NumberedSnoc(acks: seq<Ack>, bytes: nat)
    requires Numbered(acks) && bytes > 0
    ensures var r := acks + [Ack((|acks| % TWO32 + 1) % TWO32, bytes)];
            Numbered(r) && r[|acks|].number == |r| % TWO32
  {
    var r := acks + [Ack((|acks| % TWO32 + 1) % TWO32, bytes)];
    forall k | 0 <= k < |r| ensures r[k].bytes > 0 && r[k].number == (k + 1) % TWO32 {
      if k < |acks| { assert r[k] == acks[k]; }
    }
  }

  /** `n` rounded up to whole chunks. */
  function RoundUp(n: int, chunk: nat): (r: nat)
    requires chunk > 0
    ensures r >= n
    decreases if n > 0 then n else 0
  {
    if n <= 0 then 0 else chunk + RoundUp(n - chunk, chunk)
  }

  lemma {:induction false} RoundUpMonotone(m: int, n: int, chunk: nat)
    requires chunk > 0 && m <= n
    ensures RoundUp(m, chunk) <= RoundUp(n, chunk)
    decreases if n > 0 then n else 0
  {
    if m > 0 { RoundUpMonotone(m - chunk, n - chunk, chunk); }
  }

  /** A whole number of chunks. */
  predicate Whole(n: nat, chunk: nat)
    requires chunk > 0
  {
    RoundUp(n, chunk) == n
  }

  lemma {:induction false} RoundUpPastWhole(n: nat, whole: nat, chunk: nat)
    requires chunk > 0 && Whole(whole, chunk)
    ensures RoundUp(n + whole, chunk) == RoundUp(n, chunk) + whole
    decreases whole
  {
    if whole > 0 {
      assert whole >= chunk by { assert RoundUp(whole - chunk, chunk) >= 0; }
      RoundUpPastWhole(n, whole - chunk, chunk);
    }
  }
}
