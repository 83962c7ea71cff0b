/** The byte stream behind the logical digest of an export: the same for both formats, and different for
    any two different exports. */
module ExportDigest {
  import opened Wrappers
  import opened Text
  import opened Csv

  datatype Scope = Summary | CompleteEvidence

  datatype Projection = Redacted | Display

  function Ascii(s: string): (b: Bytes)
    ensures |b| == |s|
  {
    seq(|s|, i requires 0 <= i < |s| => s[i] as int % 256)
  }

  function ScopeName(s: Scope): string {
    match s
    case Summary => "summary"
    case CompleteEvidence => "complete_evidence"
  }

  function ProjectionName(p: Projection): string {
    match p
    case Redacted => "redacted"
    case Display => "display"
  }

  const DOMAIN: string := "guiying.history-export.logical-records.v1\0"

  /** `to_le_bytes` of an integer of `width` bytes. */
  function LittleEndian(width: nat, value: nat): (b: Bytes)
    ensures |b| == width
  {
    if width == 0 then [] else [value % 256] + LittleEndian(width - 1, value / 256)
  }

  function Capacity(width: nat): nat { if width == 0 then 1 else 256 * Capacity(width - 1) }

  lemma {:induction false} LittleEndianInjective(width: nat, a: nat, b: nat)
    requires a < Capacity(width) && b < Capacity(width) && LittleEndian(width, a) == LittleEndian(width, b)
    ensures a == b
  {
    if width > 0 {
      var x, y := LittleEndian(width, a), LittleEndian(width, b);
      assert x[0] == a % 256 && y[0] == b % 256;
      assert x[1..] == LittleEndian(width - 1, a / 256) && y[1..] == LittleEndian(width - 1, b / 256);
      LittleEndianInjective(width - 1, a / 256, b / 256);
    }
  }

  /** `hash_length_prefixed`. */
  function Prefixed(value: Bytes): Bytes { LittleEndian(8, |value|) + value }

  /** Lengths are 64-bit numbers. */
  predicate Fits(value: Bytes) { |value| < Capacity(8) }

  /** Length-prefixed values can be told apart whatever follows them. */
  lemma PrefixedSplits(a: Bytes, x: Bytes, b: Bytes, y: Bytes)
    requires Fits(a) && Fits(b) && Prefixed(a) + x == Prefixed(b) + y
    ensures a == b && x == y
  {
    hide LittleEndian, Capacity;
    var s, t := Prefixed(a) + x, Prefixed(b) + y;
    assert s[..8] == LittleEndian(8, |a|) && t[..8] == LittleEndian(8, |b|);
    LittleEndianInjective(8, |a|, |b|);
    assert s[8..8 + |a|] == a && t[8..8 + |b|] == b;
    assert s[8 + |a|..] == x && t[8 + |b|..] == y;
  }

  function RecordStream(records: seq<Bytes>): Bytes {
    if records == [] then [] else RecordStream(records[..|records| - 1]) + Prefixed(records[|records| - 1])
  }

  function HeadStream(scope: Scope, projection: Projection, expected: nat): Bytes {
    Ascii(DOMAIN) + Prefixed(Ascii(ScopeName(scope))) + Prefixed(Ascii(ProjectionName(projection)))
    + Prefixed(LittleEndian(4, expected))
  }

  /** Everything fed to the hasher by a finished export. */
  function DigestStream(scope: Scope, projection: Projection, records: seq<Bytes>): Bytes {
    HeadStream(scope, projection, |records|) + RecordStream(records) + Prefixed(LittleEndian(4, |records|))
  }

  lemma {:induction false} RecordStreamFromFront(records: seq<Bytes>)
    requires records != []
    ensures RecordStream(records) == Prefixed(records[0]) + RecordStream(records[1..])
    decreases |records|
  {
    hide Prefixed;
    var n := |records| - 1;
    if n == 0 {
      assert records[..0] == [] && records[1..] == [];
    } else {
      var init := records[..n];
      RecordStreamFromFront(init);
      assert init[1..] == records[1..][..n - 1] && records[1..][n - 1] == records[n];
      assert RecordStream(records[1..]) == RecordStream(init[1..]) + Prefixed(records[n]);
      assert Prefixed(records[0]) + RecordStream(init[1..]) + Prefixed(records[n])
             == Prefixed(records[0]) + (RecordStream(init[1..]) + Prefixed(records[n]));
    }
  }

  predicate AllFit(records: seq<Bytes>) { forall i :: 0 <= i < |records| ==> Fits(records[i]) }

  lemma {:induction false} RecordStreamSplits(r: seq<Bytes>, x: Bytes, s: seq<Bytes>, y: Bytes)
    requires |r| == |s| && AllFit(r) && AllFit(s) && RecordStream(r) + x == RecordStream(s) + y
    ensures r == s && x == y
    decreases |r|
  {
    hide Prefixed, Fits;
    if r == [] {
      assert [] + x == x && [] + y == y;
    } else {
      RecordStreamFromFront(r);
      RecordStreamFromFront(s);
      assert RecordStream(r) + x == Prefixed(r[0]) + (RecordStream(r[1..]) + x);
      assert RecordStream(s) + y == Prefixed(s[0]) + (RecordStream(s[1..]) + y);
      PrefixedSplits(r[0], RecordStream(r[1..]) + x, s[0], RecordStream(s[1..]) + y);
      RecordStreamSplits(r[1..], x, s[1..], y);
      assert r == [r[0]] + r[1..] && s == [s[0]] + s[1..];
    }
  }

  lemma NamesDiffer(s: Scope, t: Scope, p: Projection, q: Projection)
    ensures Ascii(ScopeName(s)) == Ascii(ScopeName(t)) ==> s == t
    ensures Ascii(ProjectionName(p)) == Ascii(ProjectionName(q)) ==> p == q
    ensures Fits(Ascii(ScopeName(s))) && Fits(Ascii(ProjectionName(p))) && forall v :: Fits(LittleEndian(4, v))
  {
    assert |Ascii(ScopeName(s))| == |ScopeName(s)| && |Ascii(ScopeName(t))| == |ScopeName(t)|;
    assert |Ascii(ProjectionName(p))| == |ProjectionName(p)| && |Ascii(ProjectionName(q))| == |ProjectionName(q)|;
    assert Capacity(4) == 0x1_0000_0000;
    assert Capacity(8) == 0x1_0000_0000 * 0x1_0000_0000;
  }

  lemma HeadSplits(s: Scope, p: Projection, m: nat, x: Bytes, t: Scope, q: Projection, n: nat, y: Bytes)
    requires m < Capacity(4) && n < Capacity(4)
    requires HeadStream(s, p, m) + x == HeadStream(t, q, n) + y
    ensures s == t && p == q && m == n && x == y
  {
    hide Prefixed, Fits, LittleEndian, Capacity, ScopeName, ProjectionName, Ascii;
    NamesDiffer(s, t, p, q);
    NamesDiffer(t, s, q, p);
    var d := Ascii(DOMAIN);
    var sp, tp := Prefixed(LittleEndian(4, m)) + x, Prefixed(LittleEndian(4, n)) + y;
    var pp, qp := Prefixed(Ascii(ProjectionName(p))) + sp, Prefixed(Ascii(ProjectionName(q))) + tp;
    var a, b := Prefixed(Ascii(ScopeName(s))) + pp, Prefixed(Ascii(ScopeName(t))) + qp;
    assert HeadStream(s, p, m) + x == d + a;
    assert HeadStream(t, q, n) + y == d + b;
    assert (d + a)[|d|..] == a && (d + b)[|d|..] == b;
    PrefixedSplits(Ascii(ScopeName(s)), pp, Ascii(ScopeName(t)), qp);
    PrefixedSplits(Ascii(ProjectionName(p)), sp, Ascii(ProjectionName(q)), tp);
    PrefixedSplits(LittleEndian(4, m), x, LittleEndian(4, n), y);
    LittleEndianInjective(4, m, n);
  }

  /** Two finished exports feed the hasher the same bytes only if they agree on scope, projection and every
      record, in order. */
  lemma DigestStreamInjective(s: Scope, p: Projection, r: seq<Bytes>, t: Scope, q: Projection, u: seq<Bytes>)
    requires |r| < Capacity(4) && |u| < Capacity(4) && AllFit(r) && AllFit(u)
    requires DigestStream(s, p, r) == DigestStream(t, q, u)
    ensures s == t && p == q && r == u
  {
    hide HeadStream, RecordStream, Prefixed, Fits, LittleEndian, Capacity;
    var x, y := RecordStream(r) + Prefixed(LittleEndian(4, |r|)), RecordStream(u) + Prefixed(LittleEndian(4, |u|));
    assert DigestStream(s, p, r) == HeadStream(s, p, |r|) + x;
    assert DigestStream(t, q, u) == HeadStream(t, q, |u|) + y;
    HeadSplits(s, p, |r|, x, t, q, |u|, y);
    RecordStreamSplits(r, Prefixed(LittleEndian(4, |r|)), u, Prefixed(LittleEndian(4, |u|)));
  }
}
