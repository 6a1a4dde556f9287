/** The write-ahead log on disk: records cut into fragments so that no fragment crosses a
    block boundary. */
module LogFormat {
  import opened Coding
  import opened Crc32c

  const BLOCK_SIZE := 32768

  const HEADER_SIZE := 7

  const ZERO_TYPE := 0
  const FULL_TYPE := 1
  const FIRST_TYPE := 2
  const MIDDLE_TYPE := 3
  const LAST_TYPE := 4

  // ----- physical records -----

  datatype Physical = Physical(kind: byte, payload: Bytes)

  /** The bytes of one physical record. */
  function Raw(crc: Crc, p: Physical): (bs: Bytes)
    requires |p.payload| < 0x1_0000
    ensures |bs| == HEADER_SIZE + |p.payload|
  {
    EncodeFixed32(Mask(crc([p.kind] + p.payload))) + [|p.payload| % 256, |p.payload| / 256, p.kind] + p.payload
  }

  /** What is left of a block when it has no room for a header is filled with zeros. */
  function Padding(offset: nat): (n: nat)
    ensures n < HEADER_SIZE
    ensures (offset + n) % BLOCK_SIZE + HEADER_SIZE <= BLOCK_SIZE
  {
    var leftover := BLOCK_SIZE - offset % BLOCK_SIZE;
    if leftover < HEADER_SIZE then leftover else 0
  }

  /** The length of the log file after these physical records. */
  function End(ps: seq<Physical>): nat {
    if ps == [] then 0
    else
      var front := End(ps[..|ps| - 1]);
      front + Padding(front) + HEADER_SIZE + |ps[|ps| - 1].payload|
  }

  /** Where a physical record after these begins. */
  function Start(ps: seq<Physical>): nat {
    End(ps) + Padding(End(ps))
  }

  /** Every record ends in the block it starts in. */
  ghost predicate Fits(ps: seq<Physical>) {
    ps != [] ==>
      var front, last := ps[..|ps| - 1], ps[|ps| - 1];
      Fits(front) && Start(front) % BLOCK_SIZE + HEADER_SIZE + |last.payload| <= BLOCK_SIZE
  }

  /** The log file holding these physical records. */
  ghost function FileOf(crc: Crc, ps: seq<Physical>): (file: Bytes)
    requires Fits(ps)
    ensures |file| == End(ps)
  {
    if ps == [] then []
    else
      var front := FileOf(crc, ps[..|ps| - 1]);
      front + Zeros(Padding(|front|)) + Raw(crc, ps[|ps| - 1])
  }

  lemma {:induction false} FilePrefix(crc: Crc, ps: seq<Physical>, i: nat)
    requires Fits(ps) && i <= |ps|
    ensures Fits(ps[..i]) && FileOf(crc, ps[..i]) <= FileOf(crc, ps)
    decreases |ps|
  {
    hide Raw, Zeros, Padding;
    if i < |ps| {
      var front := ps[..|ps| - 1];
      FilePrefix(crc, front, i);
      assert front[..i] == ps[..i];
    } else {
      assert ps[..i] == ps;
    }
  }

  lemma {:induction false} FitsPrefix(ps: seq<Physical>, i: nat)
    requires Fits(ps) && i <= |ps|
    ensures Fits(ps[..i]) && End(ps[..i]) <= End(ps)
    decreases |ps|
  {
    hide Padding;
    if i < |ps| {
      FitsPrefix(ps[..|ps| - 1], i);
      assert ps[..|ps| - 1][..i] == ps[..i];
    } else {
      assert ps[..i] == ps;
    }
  }

  /** A physical record ends in the block it starts in. */
  lemma RecordFits(ps: seq<Physical>, i: nat)
    requires Fits(ps) && i < |ps|
    ensures End(ps[..i + 1]) == Start(ps[..i]) + HEADER_SIZE + |ps[i].payload| <= End(ps)
    ensures Start(ps[..i]) % BLOCK_SIZE + HEADER_SIZE + |ps[i].payload| <= BLOCK_SIZE
  {
    hide Padding;
    FitsPrefix(ps, i + 1);
    var some := ps[..i + 1];
    assert some[..|some| - 1] == ps[..i] && some[i] == ps[i];
  }

  /** A physical record lies where the file says. */
  lemma RecordAt(crc: Crc, ps: seq<Physical>, i: nat)
    requires Fits(ps) && i < |ps|
    ensures |ps[i].payload| < 0x1_0000 && End(ps[..i + 1]) == Start(ps[..i]) + HEADER_SIZE + |ps[i].payload| <= End(ps)
    ensures FileOf(crc, ps)[Start(ps[..i])..End(ps[..i + 1])] == Raw(crc, ps[i])
  {
    hide Raw, Zeros, Padding, Start, FileOf, Fits, End;
    RecordFits(ps, i);
    FilePrefix(crc, ps, i);
    FilePrefix(crc, ps, i + 1);
    FileStep(crc, ps, i);
    var front := FileOf(crc, ps[..i]);
    LastPart(front + Zeros(Padding(|front|)), Raw(crc, ps[i]), FileOf(crc, ps));
  }

  lemma FileStep(crc: Crc, ps: seq<Physical>, i: nat)
    requires Fits(ps) && i < |ps| && Fits(ps[..i + 1]) && Fits(ps[..i]) && |ps[i].payload| < 0x1_0000
    ensures FileOf(crc, ps[..i + 1]) == FileOf(crc, ps[..i]) + Zeros(Padding(End(ps[..i]))) + Raw(crc, ps[i])
    ensures |FileOf(crc, ps[..i]) + Zeros(Padding(End(ps[..i])))| == Start(ps[..i])
  {
    hide Raw, Zeros, Padding;
    var some := ps[..i + 1];
    assert some[..|some| - 1] == ps[..i] && some[i] == ps[i];
  }

  lemma LastPart(a: Bytes, b: Bytes, file: Bytes)
    requires a + b <= file
    ensures |a| + |b| <= |file| && file[|a|..|a| + |b|] == b
  {
    assert (a + b)[|a|..] == b;
    assert file[..|a| + |b|] == a + b;
  }

  // ----- records and their fragments -----

  function Payload(fs: seq<Physical>): Bytes {
    if fs == [] then [] else Payload(fs[..|fs| - 1]) + fs[|fs| - 1].payload
  }

  predicate KindFits(fs: seq<Physical>, k: nat)
    requires k < |fs|
  {
    fs[k].kind ==
      if |fs| == 1 then FULL_TYPE
      else if k == 0 then FIRST_TYPE
      else if k == |fs| - 1 then LAST_TYPE
      else MIDDLE_TYPE
  }

  /** fs is a record cut into fragments. */
  predicate IsFragments(fs: seq<Physical>, record: Bytes) {
    fs != [] && Payload(fs) == record && forall k :: 0 <= k < |fs| ==> KindFits(fs, k)
  }

  function Flatten(groups: seq<seq<Physical>>): seq<Physical> {
    if groups == [] then [] else Flatten(groups[..|groups| - 1]) + groups[|groups| - 1]
  }

  /** file is the log of these records. */
  ghost predicate LogOf(crc: Crc, file: Bytes, groups: seq<seq<Physical>>, records: seq<Bytes>) {
    && |groups| == |records|
    && (forall j :: 0 <= j < |groups| ==> IsFragments(groups[j], records[j]))
    && Fits(Flatten(groups)) && file == FileOf(crc, Flatten(groups))
  }

  lemma {:induction false} FlattenPrefix(groups: seq<seq<Physical>>, j: nat)
    requires j <= |groups|
    ensures |Flatten(groups[..j])| <= |Flatten(groups)| && Flatten(groups)[..|Flatten(groups[..j])|] == Flatten(groups[..j])
    decreases |groups|
  {
    if j < |groups| {
      var front := groups[..|groups| - 1];
      FlattenPrefix(front, j);
      assert front[..j] == groups[..j];
      assert Flatten(groups)[..|Flatten(groups[..j])|] == Flatten(front)[..|Flatten(groups[..j])|];
    } else {
      assert groups[..j] == groups;
    }
  }

  /** The t-th fragment of the j-th record among all physical records. */
  lemma FlattenAt(groups: seq<seq<Physical>>, j: nat, t: nat)
    requires j < |groups| && t < |groups[j]|
    ensures
      var at := |Flatten(groups[..j])| + t;
      at < |Flatten(groups)| && Flatten(groups)[at] == groups[j][t]
    ensures |Flatten(groups[..j + 1])| == |Flatten(groups[..j])| + |groups[j]|
  {
    FlattenPrefix(groups, j + 1);
    assert groups[..j + 1][..j] == groups[..j];
    var some := Flatten(groups[..j + 1]);
    assert some == Flatten(groups[..j]) + groups[j];
    assert Flatten(groups)[..|some|][|Flatten(groups[..j])| + t] == groups[j][t];
  }
}
