/**
 The instrumentation headers stamped on every record and what is read back from them, and
 the deduplication key built from what is read back.
 */
module Headers {
  import opened Helpers

  datatype Header = Header(key: string, value: string)

  const WORKER_ID := "WorkerId"
  const SEQUENCE := "Sequence"
  const CONTENT_HASH := "ContentHash"
  const TIMESTAMP_NS := "TimestampNs"

  // ---------- Decimal numbers ----------

  predicate IsDigit(c: char) { '0' <= c <= '9' }

  function FormatUint(n: nat): (s: string)
    ensures s != [] && (forall i | 0 <= i < |s| :: IsDigit(s[i]))
    ensures s[0] == '0' ==> n == 0 && |s| == 1
  {
    var digit := '0' + (n % 10) as char;
    if n < 10 then [digit] else FormatUint(n / 10) + [digit]
  }

  function FormatInt(n: int): (s: string)
    ensures s != [] && (s[0] == '-' <==> n < 0) && s[0] != '+'
  {
    if n < 0 then "-" + FormatUint(-n) else FormatUint(n)
  }

  function DigitsValue(s: string): nat
    requires forall i | 0 <= i < |s| :: IsDigit(s[i])
  {
    if s == [] then 0
    else assert IsDigit(s[|s| - 1]); 10 * DigitsValue(s[..|s| - 1]) + (s[|s| - 1] - '0') as nat
  }

  /** The number that a string of digits denotes, when it is below the limit. */
  function ParseDigits(s: string, limit: int): Option<nat> {
    if s != [] && (forall i | 0 <= i < |s| :: IsDigit(s[i])) && DigitsValue(s) < limit
    then Some(DigitsValue(s))
    else None
  }

  function ParseUint(s: string): Option<nat> { ParseDigits(s, TWO_TO_THE_64) }

  function Signed(magnitude: Option<nat>, negative: bool): Option<int> {
    if magnitude.None? then None
    else
      var value: int := if negative then 0 - magnitude.value else magnitude.value;
      Some(value)
  }

  /** A signed number: an optional sign, then digits. */
  function ParseInt(s: string): Option<int> {
    if s != [] && s[0] == '-' then Signed(ParseDigits(s[1..], TWO_TO_THE_63 + 1), true)
    else if s != [] && s[0] == '+' then Signed(ParseDigits(s[1..], TWO_TO_THE_63), false)
    else Signed(ParseDigits(s, TWO_TO_THE_63), false)
  }

  lemma {:induction false} FormatHasValue(n: nat)
    ensures DigitsValue(FormatUint(n)) == n
  {
    var s := FormatUint(n);
    if n >= 10 {
      FormatHasValue(n / 10);
      assert s[..|s| - 1] == FormatUint(n / 10);
    } else {
      assert s[..0] == [];
    }
  }

  lemma UintRoundTrip(n: nat)
    requires n < TWO_TO_THE_64
    ensures ParseUint(FormatUint(n)) == Some(n)
  {
    FormatHasValue(n);
  }

  lemma IntRoundTrip(n: int)
    requires -TWO_TO_THE_63 <= n < TWO_TO_THE_63
    ensures ParseInt(FormatInt(n)) == Some(n)
  {
    var digits := FormatUint(if n < 0 then -n else n);
    FormatHasValue(if n < 0 then -n else n);
    if n < 0 {
      assert FormatInt(n)[1..] == digits;
    } else {
      assert IsDigit(digits[0]);
    }
  }

  /** Numbers are decimal: one digit more is ten times as much, and the digits are those of the characters. */
  lemma Decimal(s: string, c: char)
    requires IsDigit(c) && forall i | 0 <= i < |s| :: IsDigit(s[i])
    ensures DigitsValue("") == 0
    ensures (forall i | 0 <= i < |s + [c]| :: IsDigit((s + [c])[i])) && '0' <= c <= '9'
    ensures DigitsValue(s + [c]) == 10 * DigitsValue(s) + (c as int - '0' as int)
  {
    assert (s + [c])[..|s|] == s;
  }

  /** What can be read: digits up to the largest value, a sign for signed numbers only, and nothing else. */
  lemma Readable(s: string)
    ensures ParseUint(s).Some? <==>
      s != "" && (forall i | 0 <= i < |s| :: '0' <= s[i] <= '9') && DigitsValue(s) <= 0xffff_ffff_ffff_ffff
    ensures ParseUint(s).Some? ==> ParseUint(s).value == DigitsValue(s)
    ensures ParseInt("-" + s).Some? <==>
      s != "" && (forall i | 0 <= i < |s| :: '0' <= s[i] <= '9') && DigitsValue(s) <= 0x8000_0000_0000_0000
    ensures ParseInt("-" + s).Some? ==> ParseInt("-" + s).value == 0 - DigitsValue(s)
    ensures ParseInt("+" + s).Some? <==>
      s != "" && (forall i | 0 <= i < |s| :: '0' <= s[i] <= '9') && DigitsValue(s) <= 0x7fff_ffff_ffff_ffff
    ensures ParseInt("+" + s).Some? ==> ParseInt("+" + s).value == DigitsValue(s)
    ensures s != "" && '0' <= s[0] <= '9' ==> ParseInt(s) == ParseInt("+" + s)
  {
    assert ("-" + s)[1..] == s && ("+" + s)[1..] == s;
  }

  // ---------- Stamping and extracting ----------

  function StampHeaders(producerId: string, seqNo: nat, crcHex: string, nanos: int): seq<Header> {
    [Header(WORKER_ID, producerId), Header(SEQUENCE, FormatUint(seqNo)),
     Header(CONTENT_HASH, crcHex), Header(TIMESTAMP_NS, FormatInt(nanos))]
  }

  datatype Meta = Meta(producerId: string, seqNo: nat, crcHex: string, sentAt: Option<int>)

  predicate Ok(m: Meta) { m.producerId != "" }

  /** What one header changes; a number that does not parse changes nothing. */
  function Take(m: Meta, h: Header): Meta {
    if h.key == WORKER_ID then m.(producerId := h.value)
    else if h.key == CONTENT_HASH then m.(crcHex := h.value)
    else if h.key == SEQUENCE then
      match ParseUint(h.value)
      case Some(n) => m.(seqNo := n)
      case None => m
    else if h.key == TIMESTAMP_NS then
      match ParseInt(h.value)
      case Some(n) => m.(sentAt := Some(n))
      case None => m
    else m
  }

  function TakeAll(m: Meta, headers: seq<Header>): Meta
    decreases |headers|
  {
    if headers == [] then m else TakeAll(Take(m, headers[0]), headers[1..])
  }

  function Extracted(headers: seq<Header>): Meta {
    TakeAll(Meta("", 0, "", None), headers)
  }

  /** The last header with this key that can be read is at i. */
  predicate LastAt(headers: seq<Header>, key: string, i: int) {
    && 0 <= i < |headers| && headers[i].key == key && Reads(headers[i])
    && forall j | i < j < |headers| && headers[j].key == key :: !Reads(headers[j])
  }

  /** No header with this key can be read. */
  predicate Nowhere(headers: seq<Header>, key: string) {
    forall j | 0 <= j < |headers| && headers[j].key == key :: !Reads(headers[j])
  }

  /** A sequence has to be an unsigned number and a time a signed one; any other value can be read. */
  predicate Reads(h: Header) {
    (h.key == "Sequence" ==> ParseUint(h.value).Some?) && (h.key == "TimestampNs" ==> ParseInt(h.value).Some?)
  }

  /** Each field is that of the last header with its key that can be read, or empty when there is none. */
  ghost predicate LastsDecide(headers: seq<Header>, m: Meta) {
    && (Nowhere(headers, "WorkerId") ==> m.producerId == "")
    && (Nowhere(headers, "ContentHash") ==> m.crcHex == "")
    && (Nowhere(headers, "Sequence") ==> m.seqNo == 0)
    && (Nowhere(headers, "TimestampNs") ==> m.sentAt == None)
    && (forall i :: LastAt(headers, "WorkerId", i) ==> m.producerId == headers[i].value)
    && (forall i :: LastAt(headers, "ContentHash", i) ==> m.crcHex == headers[i].value)
    && (forall i :: LastAt(headers, "Sequence", i) ==> Some(m.seqNo) == ParseUint(headers[i].value))
    && (forall i :: LastAt(headers, "TimestampNs", i) ==> m.sentAt == ParseInt(headers[i].value))
  }

  lemma {:induction false} TakeAllSnoc(m: Meta, headers: seq<Header>, h: Header)
    ensures TakeAll(m, headers + [h]) == Take(TakeAll(m, headers), h)
    decreases |headers|
  {
    hide Take;
    if headers == [] {
      assert headers + [h] == [h] && [h][1..] == [];
    } else {
      assert (headers + [h])[1..] == headers[1..] + [h];
      TakeAllSnoc(Take(m, headers[0]), headers[1..], h);
    }
  }

  /** One more header is the last to read when it has the key and can be read; otherwise nothing changes. */
  lemma LastMoves(headers: seq<Header>, h: Header, key: string)
    ensures h.key == key && Reads(h) ==>
      !Nowhere(headers + [h], key) && forall i | LastAt(headers + [h], key, i) :: i == |headers|
    ensures !(h.key == key && Reads(h)) ==>
      && (Nowhere(headers + [h], key) ==> Nowhere(headers, key))
      && forall i | LastAt(headers + [h], key, i) :: i < |headers| && LastAt(headers, key, i)
  {
    hide Reads;
    var all := headers + [h];
    assert all[|headers|] == h && forall j | 0 <= j < |headers| :: all[j] == headers[j];
  }

  lemma OneMoreHeader(headers: seq<Header>, h: Header, m: Meta)
    requires LastsDecide(headers, m)
    ensures LastsDecide(headers + [h], Take(m, h))
  {
    hide ParseUint, ParseInt, LastAt, Nowhere;
    LastMoves(headers, h, "WorkerId");
    LastMoves(headers, h, "ContentHash");
    LastMoves(headers, h, "Sequence");
    LastMoves(headers, h, "TimestampNs");
    KeysDiffer();
    forall i, key | LastAt(headers + [h], key, i)
      ensures 0 <= i <= |headers|
      ensures (headers + [h])[i] == if i == |headers| then h else headers[i]
    {
      LastIsInside(headers + [h], key, i);
    }
  }

  lemma LastIsInside(headers: seq<Header>, key: string, i: int)
    requires LastAt(headers, key, i)
    ensures 0 <= i < |headers|
  {
  }

  lemma KeysDiffer()
    ensures "WorkerId" != "ContentHash" && "WorkerId" != "Sequence" && "WorkerId" != "TimestampNs"
    ensures "ContentHash" != "Sequence" && "ContentHash" != "TimestampNs" && "Sequence" != "TimestampNs"
  {
    assert "WorkerId"[0] == 'W' && "ContentHash"[0] == 'C' && "Sequence"[0] == 'S' && "TimestampNs"[0] == 'T';
  }

  lemma {:induction false} ExtractedLastsDecide(headers: seq<Header>)
    ensures LastsDecide(headers, Extracted(headers))
  {
    hide Take, LastsDecide;
    if headers == [] {
      NothingRead();
    } else {
      ExtractedLastsDecide(Front(headers));
      TakeAllSnoc(Meta("", 0, "", None), Front(headers), Last(headers));
      OneMoreHeader(Front(headers), Last(headers), Extracted(Front(headers)));
      assert Front(headers) + [Last(headers)] == headers;
    }
  }

  lemma NothingRead()
    ensures LastsDecide([], Meta("", 0, "", None))
  {
  }

  method ExtractMeta(headers: seq<Header>) returns (m: Meta, ok: bool)
    ensures m == Extracted(headers) && (ok <==> m.producerId != "")
    ensures LastsDecide(headers, m)
  {
    hide LastsDecide;
    ExtractedLastsDecide(headers);
    m := Meta("", 0, "", None);
    for i := 0 to |headers|
      invariant TakeAll(m, headers[i..]) == Extracted(headers)
    {
      assert headers[i..][0] == headers[i] && headers[i..][1..] == headers[i + 1..];
      var h := headers[i];
      if h.key == WORKER_ID {
        m := m.(producerId := h.value);
      } else if h.key == CONTENT_HASH {
        m := m.(crcHex := h.value);
      } else if h.key == SEQUENCE {
        var n := ParseUint(h.value);
        if n.Some? {
          m := m.(seqNo := n.value);
        }
      } else if h.key == TIMESTAMP_NS {
        var n := ParseInt(h.value);
        if n.Some? {
          m := m.(sentAt := Some(n.value));
        }
      }
    }
    ok := m.producerId != "";
  }

  predicate Foreign(headers: seq<Header>) {
    forall i | 0 <= i < |headers| :: headers[i].key !in {WORKER_ID, SEQUENCE, CONTENT_HASH, TIMESTAMP_NS}
  }

  lemma {:induction false} ForeignHeadersChangeNothing(m: Meta, headers: seq<Header>)
    requires Foreign(headers)
    ensures TakeAll(m, headers) == m
  {
    if headers != [] {
      assert Take(m, headers[0]) == m;
      ForeignHeadersChangeNothing(m, headers[1..]);
    }
  }

  lemma StampedByName(producerId: string, seqNo: nat, crcHex: string, nanos: int)
    ensures var stamped := StampHeaders(producerId, seqNo, crcHex, nanos);
      && (forall i | 0 <= i < |stamped| :: stamped[i].key in ["WorkerId", "Sequence", "ContentHash", "TimestampNs"])
      && ValueOf(stamped, "WorkerId") == producerId && ValueOf(stamped, "Sequence") == FormatUint(seqNo)
      && ValueOf(stamped, "ContentHash") == crcHex && ValueOf(stamped, "TimestampNs") == FormatInt(nanos)
  {
    hide FormatUint, FormatInt, ValueOf;
    var stamped := StampHeaders(producerId, seqNo, crcHex, nanos);
    KeysDiffer();
    var keys := ["WorkerId", "Sequence", "ContentHash", "TimestampNs"];
    assert keys[0] in keys && keys[1] in keys && keys[2] in keys && keys[3] in keys;
    FirstIs(stamped, "WorkerId", 0);
    FirstIs(stamped, "Sequence", 1);
    FirstIs(stamped, "ContentHash", 2);
    FirstIs(stamped, "TimestampNs", 3);
  }

  lemma FirstIs(headers: seq<Header>, key: string, i: int)
    requires FirstAt(headers, key, i)
    ensures ValueOf(headers, key) == headers[i].value
  {
    FirstDecides(headers, key);
    if j :| FirstAt(headers, key, j) && ValueOf(headers, key) == headers[j].value {
      assert i == j;
    }
  }

  /** What was stamped is read back, whatever foreign headers follow; the result is ok exactly when the
      producer id is not empty. */
  lemma StampRoundTrip(producerId: string, seqNo: nat, crcHex: string, nanos: int, extra: seq<Header>)
    requires seqNo < TWO_TO_THE_64 && -TWO_TO_THE_63 <= nanos < TWO_TO_THE_63 && Foreign(extra)
    ensures Extracted(StampHeaders(producerId, seqNo, crcHex, nanos) + extra) ==
      Meta(producerId, seqNo, crcHex, Some(nanos))
    ensures Ok(Extracted(StampHeaders(producerId, seqNo, crcHex, nanos) + extra)) <==> producerId != ""
    ensures var stamped := StampHeaders(producerId, seqNo, crcHex, nanos);
      && (forall i | 0 <= i < |stamped| :: stamped[i].key in ["WorkerId", "Sequence", "ContentHash", "TimestampNs"])
      && ValueOf(stamped, "WorkerId") == producerId && ValueOf(stamped, "ContentHash") == crcHex
      && ParseUint(ValueOf(stamped, "Sequence")) == Some(seqNo)
      && ParseInt(ValueOf(stamped, "TimestampNs")) == Some(nanos)
  {
    hide ParseUint, ParseInt, FormatUint, FormatInt;
    UintRoundTrip(seqNo);
    IntRoundTrip(nanos);
    var stamped := StampHeaders(producerId, seqNo, crcHex, nanos);
    var all := stamped + extra;
    var m0 := Meta("", 0, "", None);
    var m1 := Take(m0, stamped[0]);
    var m2 := Take(m1, stamped[1]);
    var m3 := Take(m2, stamped[2]);
    var m4 := Take(m3, stamped[3]);
    assert all[1..][0] == stamped[1] && all[2..][0] == stamped[2] && all[3..][0] == stamped[3];
    assert all[1..][1..] == all[2..] && all[2..][1..] == all[3..] && all[3..][1..] == all[4..] == extra;
    assert TakeAll(m0, all) == TakeAll(m1, all[1..]);
    assert TakeAll(m1, all[1..]) == TakeAll(m2, all[2..]);
    assert TakeAll(m2, all[2..]) == TakeAll(m3, all[3..]);
    assert TakeAll(m3, all[3..]) == TakeAll(m4, extra);
    ForeignHeadersChangeNothing(m4, extra);
    StampedByName(producerId, seqNo, crcHex, nanos);
  }

  /** The value of the first header with this key, or the empty string. */
  method HeaderValue(headers: seq<Header>, key: string) returns (value: string)
    ensures value == ValueOf(headers, key)
    ensures (value == "" && forall i | 0 <= i < |headers| :: headers[i].key != key) ||
      exists i :: FirstAt(headers, key, i) && value == headers[i].value
  {
    FirstDecides(headers, key);
    for i := 0 to |headers|
      invariant ValueOf(headers[i..], key) == ValueOf(headers, key)
    {
      assert headers[i..][0] == headers[i] && headers[i..][1..] == headers[i + 1..];
      if headers[i].key == key {
        return headers[i].value;
      }
    }
    return "";
  }

  function ValueOf(headers: seq<Header>, key: string): string {
    if headers == [] then ""
    else if headers[0].key == key then headers[0].value
    else ValueOf(headers[1..], key)
  }

  /** The first header with this key is at i. */
  predicate FirstAt(headers: seq<Header>, key: string, i: int) {
    0 <= i < |headers| && headers[i].key == key && forall j | 0 <= j < i :: headers[j].key != key
  }

  lemma {:induction false} FirstDecides(headers: seq<Header>, key: string)
    ensures (ValueOf(headers, key) == "" && forall i | 0 <= i < |headers| :: headers[i].key != key) ||
      exists i :: FirstAt(headers, key, i) && ValueOf(headers, key) == headers[i].value
  {
    if headers != [] && headers[0].key != key {
      FirstDecides(headers[1..], key);
      if i :| FirstAt(headers[1..], key, i) && ValueOf(headers[1..], key) == headers[1..][i].value {
        assert FirstAt(headers, key, i + 1);
      } else {
        forall i | 0 <= i < |headers|
          ensures headers[i].key != key
        {
          assert i > 0 ==> headers[i] == headers[1..][i - 1];
        }
      }
    } else if headers != [] {
      assert FirstAt(headers, key, 0);
    }
  }

  lemma {:induction false} ValueOfLast(headers: seq<Header>, last: Header)
    requires forall i | 0 <= i < |headers| :: headers[i].key != last.key
    ensures ValueOf(headers + [last], last.key) == last.value
  {
    if headers == [] {
      assert headers + [last] == [last];
    } else {
      assert (headers + [last])[1..] == headers[1..] + [last];
      ValueOfLast(headers[1..], last);
    }
  }

  // ---------- The deduplication key ----------

  function DedupKey(producerId: string, seqNo: nat): string {
    producerId + "|" + FormatUint(seqNo)
  }

  lemma KeyBar(p: string, s: nat)
    ensures var k := DedupKey(p, s);
      |p| < |k| && k[|p|] == '|' && k[..|p|] == p && k[|p| + 1..] == FormatUint(s) &&
      forall i | |p| < i < |k| :: IsDigit(k[i])
  {
    var k := DedupKey(p, s);
    forall i | |p| < i < |k|
      ensures IsDigit(k[i])
    {
      assert k[i] == FormatUint(s)[i - |p| - 1];
    }
  }

  /** The key tells two records apart exactly when they differ in producer or sequence, even when a
      producer id contains the separator. */
  lemma DedupKeyIsInjective(p: string, s: nat, q: string, t: nat)
    ensures DedupKey(p, s) == DedupKey(q, t) <==> p == q && s == t
  {
    KeyBar(p, s);
    KeyBar(q, t);
    if DedupKey(p, s) == DedupKey(q, t) {
      assert |p| == |q|;
      FormatHasValue(s);
      FormatHasValue(t);
    }
  }
}
