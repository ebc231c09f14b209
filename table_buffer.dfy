/**
 * The table's bootstrap-server and channel lists: each is a `;`-separated
 * text kept in a fixed, NUL-padded slice of the table account's data
 * (contract/src/processor.rs:46-89), read back by the client by dropping
 * every NUL, splitting at `;` and discarding the first piece
 * (src/Contract.ts:54-57).
 *
 * Rust's `str::trim_matches`, `contains` and `replace` work on the UTF-8
 * bytes of their operands, and `;` and NUL are one-byte characters that
 * never occur inside a multi-byte one, so the model works on bytes. The
 * `String::from_utf8(..).unwrap()` calls panic on ill-formed input; here
 * they are preconditions.
 */
module TableBuffer {
  import opened Wrappers
  import opened Instruction

  const SEMI: byte := 0x3B
  const NUL: byte := 0

  // ---------------------------------------------------------------------
  // UTF-8 well-formedness (Table 3-7 of the Unicode Standard, section 3.9)
  // ---------------------------------------------------------------------

  /** Length of the character a lead byte starts, 0 for a byte that cannot lead. */
  function CharLen(lead: byte): nat
  {
    if lead <= 0x7F then 1
    else if 0xC2 <= lead <= 0xDF then 2
    else if 0xE0 <= lead <= 0xEF then 3
    else if 0xF0 <= lead <= 0xF4 then 4
    else 0
  }

  predicate Cont(b: byte)
  {
    0x80 <= b <= 0xBF
  }

  /** The range the second byte of a multi-byte character must fall in. */
  predicate SecondOk(lead: byte, b: byte)
  {
    if lead == 0xE0 then 0xA0 <= b <= 0xBF
    else if lead == 0xED then 0x80 <= b <= 0x9F
    else if lead == 0xF0 then 0x90 <= b <= 0xBF
    else if lead == 0xF4 then 0x80 <= b <= 0x8F
    else Cont(b)
  }

  /** One well-formed character. */
  predicate WellFormedChar(c: seq<byte>)
  {
    |c| >= 1 && |c| == CharLen(c[0])
    && (|c| == 1 || (SecondOk(c[0], c[1]) && forall i :: 2 <= i < |c| ==> Cont(c[i])))
  }

  predicate ValidUtf8(s: seq<byte>)
    decreases |s|
  {
    s == []
    || (var k := CharLen(s[0]); 1 <= k <= |s| && WellFormedChar(s[..k]) && ValidUtf8(s[k..]))
  }

  predicate AllAscii(s: seq<byte>)
  {
    forall i :: 0 <= i < |s| ==> s[i] <= 0x7F
  }

  /** Cutting a concatenation inside its first part. */
  lemma SliceOfAppend(p: seq<byte>, q: seq<byte>, k: nat)
    requires k <= |p|
    ensures (p + q)[..k] == p[..k] && (p + q)[k..] == p[k..] + q
  {
  }

  /** An ASCII prefix does not change whether a text is well-formed. */
  lemma {:induction false} AsciiPrefix(p: seq<byte>, q: seq<byte>)
    requires AllAscii(p)
    ensures ValidUtf8(p + q) <==> ValidUtf8(q)
    decreases |p|
  {
    if p != [] {
      assert (p + q)[..1] == [p[0]];
      assert (p + q)[1..] == p[1..] + q;
      AsciiPrefix(p[1..], q);
    } else {
      assert p + q == q;
    }
  }

  /** Concatenating two well-formed texts gives a well-formed text. */
  lemma {:induction false} ValidAppend(a: seq<byte>, b: seq<byte>)
    requires ValidUtf8(a) && ValidUtf8(b)
    ensures ValidUtf8(a + b)
    decreases |a|
  {
    if a == [] {
      assert a + b == b;
    } else {
      var k := CharLen(a[0]);
      SliceOfAppend(a, b, k);
      ValidAppend(a[k..], b);
    }
  }

  /** Every byte after the first of a character is at least 0x80. */
  lemma ContinuationsAreHigh(c: seq<byte>, j: int)
    requires WellFormedChar(c) && 1 <= j < |c|
    ensures c[j] >= 0x80
  {
  }

  /**
   * An ASCII byte is always at a character boundary: cutting a well-formed
   * text just before one leaves two well-formed texts.
   */
  lemma {:induction false} ValidSplitBeforeAscii(p: seq<byte>, q: seq<byte>)
    requires ValidUtf8(p + q) && q != [] && q[0] <= 0x7F
    ensures ValidUtf8(p) && ValidUtf8(q)
    decreases |p|
  {
    if p == [] {
      assert p + q == q;
    } else {
      var s := p + q;
      var k := CharLen(s[0]);
      if k > |p| {
        ContinuationsAreHigh(s[..k], |p|);
        assert false;
      }
      SliceOfAppend(p, q, k);
      ValidSplitBeforeAscii(p[k..], q);
    }
  }

  // ---------------------------------------------------------------------
  // The string operations the helpers use
  // ---------------------------------------------------------------------

  predicate AllNul(s: seq<byte>)
  {
    forall i :: 0 <= i < |s| ==> s[i] == NUL
  }

  predicate Lacks(s: seq<byte>, b: byte)
  {
    forall i :: 0 <= i < |s| ==> s[i] != b
  }

  /** Number of NUL bytes at the start. */
  function LeadingNuls(s: seq<byte>): (n: nat)
    ensures n <= |s| && AllNul(s[..n])
    ensures n < |s| ==> s[n] != NUL
    decreases |s|
  {
    if s == [] || s[0] != NUL then 0
    else
      var m := LeadingNuls(s[1..]);
      1 + m
  }

  /** Number of NUL bytes at the end. */
  function TrailingNuls(s: seq<byte>): (n: nat)
    ensures n <= |s| && AllNul(s[|s| - n..])
    ensures n < |s| ==> s[|s| - n - 1] != NUL
    decreases |s|
  {
    if s == [] || s[|s| - 1] != NUL then 0
    else
      var init := s[..|s| - 1];
      var m := TrailingNuls(init);
      assert s[|s| - (1 + m)..] == init[|init| - m..] + [NUL];
      1 + m
  }

  /**
   * `trim_matches(char::from(0))`: the text between the leading and the
   * trailing NULs. Everything outside the result is NUL and the result
   * neither starts nor ends with NUL.
   */
  function TrimNul(s: seq<byte>): (r: seq<byte>)
    ensures r == [] <==> AllNul(s)
    ensures r != [] ==> r[0] != NUL && r[|r| - 1] != NUL
    ensures LeadingNuls(s) + |r| <= |s|
    ensures s[LeadingNuls(s)..LeadingNuls(s) + |r|] == r
    ensures AllNul(s[LeadingNuls(s) + |r|..])
  {
    var k := LeadingNuls(s);
    if k == |s| then
      assert s[k..] == [];
      []
    else
      var t := TrailingNuls(s);
      s[k..|s| - t]
  }

  /** Dropping leading NULs keeps a text well-formed. */
  lemma ValidAfterNuls(s: seq<byte>, k: nat)
    requires ValidUtf8(s) && k <= |s| && AllNul(s[..k])
    ensures ValidUtf8(s[k..])
  {
    assert s == s[..k] + s[k..];
    AsciiPrefix(s[..k], s[k..]);
  }

  /** Dropping trailing NULs keeps a text well-formed. */
  lemma ValidBeforeNuls(s: seq<byte>, n: nat)
    requires ValidUtf8(s) && n <= |s| && AllNul(s[n..])
    ensures ValidUtf8(s[..n])
  {
    if n < |s| {
      assert s == s[..n] + s[n..];
      ValidSplitBeforeAscii(s[..n], s[n..]);
    } else {
      assert s[..n] == s;
    }
  }

  /** Removing NULs from the ends keeps a text well-formed. */
  lemma TrimNulValid(s: seq<byte>)
    requires ValidUtf8(s)
    ensures ValidUtf8(TrimNul(s))
  {
    var k := LeadingNuls(s);
    var r := TrimNul(s);
    ValidAfterNuls(s, k);
    var rest := s[k..];
    assert rest[..|r|] == r;
    assert rest[|r|..] == s[k + |r|..];
    ValidBeforeNuls(rest, |r|);
  }

  function IsPrefix(p: seq<byte>, s: seq<byte>): bool
  {
    |p| <= |s| && s[..|p|] == p
  }

  /** `pat` occurs in `d` at offset `i`. */
  predicate OccursAt(d: seq<byte>, pat: seq<byte>, i: int)
  {
    0 <= i <= |d| - |pat| && d[i..i + |pat|] == pat
  }

  lemma OccursShift(d: seq<byte>, pat: seq<byte>, i: int)
    requires d != [] && i >= 1
    ensures OccursAt(d, pat, i) <==> OccursAt(d[1..], pat, i - 1)
  {
    if 0 <= i - 1 <= |d| - 1 - |pat| {
      var x, y := d[i..i + |pat|], d[1..][i - 1..i - 1 + |pat|];
      assert |x| == |y| && forall j :: 0 <= j < |x| ==> x[j] == y[j];
      assert x == y;
    }
  }

  /** `str::contains`: `pat` occurs at some offset of `d` (the empty pattern occurs everywhere). */
  function Contains(d: seq<byte>, pat: seq<byte>): (b: bool)
    ensures b <==> exists i :: OccursAt(d, pat, i)
    decreases |d|
  {
    if IsPrefix(pat, d) then
      assert OccursAt(d, pat, 0);
      true
    else if d == [] then false
    else
      var b := Contains(d[1..], pat);
      assert b <==> exists i :: OccursAt(d, pat, i) by {
        if b {
          var i :| OccursAt(d[1..], pat, i);
          assert d[i + 1..i + 1 + |pat|] == pat;
          assert OccursAt(d, pat, i + 1);
        } else {
          forall i | OccursAt(d, pat, i)
            ensures false
          {
            if i > 0 {
              OccursShift(d, pat, i);
            }
          }
        }
      }
      b
  }

  /**
   * `d.replace(pat, "")`: every occurrence of `pat` found scanning left to
   * right, without overlaps, is deleted. The result is never longer, and a
   * text without an occurrence is returned unchanged.
   */
  function RemoveAll(d: seq<byte>, pat: seq<byte>): (r: seq<byte>)
    requires pat != []
    ensures |r| <= |d|
    ensures !Contains(d, pat) ==> r == d
    ensures IsPrefix(pat, d) ==> |r| <= |d| - |pat|
    decreases |d|
  {
    if d == [] then []
    else if IsPrefix(pat, d) then RemoveAll(d[|pat|..], pat)
    else
      assert !Contains(d, pat) ==> !Contains(d[1..], pat) by {
        if Contains(d[1..], pat) {
          var i :| OccursAt(d[1..], pat, i);
          assert d[i + 1..i + 1 + |pat|] == pat;
          assert OccursAt(d, pat, i + 1);
        }
      }
      assert d == [d[0]] + d[1..];
      [d[0]] + RemoveAll(d[1..], pat)
  }

  /** The bytes `content` written into a slice of length `n`: cut at `n`, NUL after it. */
  function Padded(content: seq<byte>, n: nat): (r: seq<byte>)
    ensures |r| == n
  {
    seq(n, i requires 0 <= i < n => if i < |content| then content[i] else NUL)
  }

  lemma PaddedFits(content: seq<byte>, n: nat)
    requires |content| <= n
    ensures Padded(content, n) == content + seq(n - |content|, _ => NUL)
  {
  }

  // ---------------------------------------------------------------------
  // The client's reader (src/Contract.ts:54-57)
  // ---------------------------------------------------------------------

  /** Entries joined back into the stored form: `;e0;e1;…`. */
  function Join(es: seq<seq<byte>>): seq<byte>
  {
    if es == [] then [] else [SEMI] + es[0] + Join(es[1..])
  }

  /** `split(";")`: the pieces between separators; the pieces joined back give the text. */
  function Split(s: seq<byte>): (parts: seq<seq<byte>>)
    ensures |parts| >= 1
    ensures parts[0] + Join(parts[1..]) == s
    ensures forall i :: 0 <= i < |parts| ==> Lacks(parts[i], SEMI)
    decreases |s|
  {
    if s == [] then [[]]
    else
      var rest := Split(s[1..]);
      assert s == [s[0]] + s[1..];
      if s[0] == SEMI then
        assert ([[]] + rest)[1..] == rest;
        [[]] + rest
      else
        var parts := [[s[0]] + rest[0]] + rest[1..];
        assert parts[1..] == rest[1..];
        assert forall i :: 1 <= i < |parts| ==> parts[i] == rest[i];
        parts
  }

  /** A byte the text lacks is in none of its pieces. */
  lemma {:induction false} SplitLacks(s: seq<byte>, b: byte)
    requires Lacks(s, b)
    ensures forall i :: 0 <= i < |Split(s)| ==> Lacks(Split(s)[i], b)
    decreases |s|
  {
    if s != [] {
      SplitLacks(s[1..], b);
      var rest := Split(s[1..]);
      if s[0] != SEMI {
        assert forall i :: 1 <= i < |Split(s)| ==> Split(s)[i] == rest[i];
      }
    }
  }

  /** `replace(/\0/g, '')`: every NUL byte dropped. */
  function RemoveNuls(s: seq<byte>): (r: seq<byte>)
    ensures Lacks(r, NUL) && |r| <= |s|
    ensures Lacks(s, NUL) ==> r == s
    decreases |s|
  {
    if s == [] then []
    else
      var rest := RemoveNuls(s[1..]);
      assert s == [s[0]] + s[1..];
      if s[0] == NUL then rest else [s[0]] + rest
  }

  lemma {:induction false} RemoveNulsAppend(a: seq<byte>, b: seq<byte>)
    ensures RemoveNuls(a + b) == RemoveNuls(a) + RemoveNuls(b)
    decreases |a|
  {
    if a == [] {
      assert a + b == b;
    } else {
      assert (a + b)[1..] == a[1..] + b;
      RemoveNulsAppend(a[1..], b);
    }
  }

  lemma {:induction false} RemoveNulsAllNul(z: seq<byte>)
    requires AllNul(z)
    ensures RemoveNuls(z) == []
    decreases |z|
  {
    if z != [] {
      RemoveNulsAllNul(z[1..]);
    }
  }

  /** The entries a client reads from a slice. */
  function ClientEntries(buf: seq<byte>): (es: seq<seq<byte>>)
    ensures forall i :: 0 <= i < |es| ==> Lacks(es[i], SEMI) && Lacks(es[i], NUL)
  {
    SplitLacks(RemoveNuls(buf), NUL);
    Split(RemoveNuls(buf))[1..]
  }

  /** The client reads the same entries from a slice as from its trimmed contents. */
  lemma ClientEntriesOfTrimmed(buf: seq<byte>)
    ensures RemoveNuls(buf) == RemoveNuls(TrimNul(buf))
  {
    var k := LeadingNuls(buf);
    var d := TrimNul(buf);
    assert buf == buf[..k] + d + buf[k + |d|..];
    RemoveNulsAppend(buf[..k] + d, buf[k + |d|..]);
    RemoveNulsAppend(buf[..k], d);
    RemoveNulsAllNul(buf[..k]);
    RemoveNulsAllNul(buf[k + |d|..]);
  }

  lemma {:induction false} JoinAppend(es: seq<seq<byte>>, e: seq<byte>)
    ensures Join(es + [e]) == Join(es) + [SEMI] + e
    decreases |es|
  {
    if es != [] {
      assert (es + [e])[1..] == es[1..] + [e];
      JoinAppend(es[1..], e);
    } else {
      assert [e][1..] == [];
    }
  }

  /** Appending `;b` to a text appends the piece `b`, when `b` holds no separator. */
  lemma {:induction false} SplitAppend(a: seq<byte>, b: seq<byte>)
    requires Lacks(b, SEMI)
    ensures Split(a + [SEMI] + b) == Split(a) + [b]
    decreases |a|
  {
    if a == [] {
      assert a + [SEMI] + b == [SEMI] + b;
      assert ([SEMI] + b)[1..] == b;
      SplitNoSeparator(b);
    } else {
      assert (a + [SEMI] + b)[1..] == a[1..] + [SEMI] + b;
      SplitAppend(a[1..], b);
    }
  }

  lemma {:induction false} SplitNoSeparator(b: seq<byte>)
    requires Lacks(b, SEMI)
    ensures Split(b) == [b]
    decreases |b|
  {
    if b != [] {
      SplitNoSeparator(b[1..]);
      assert b == [b[0]] + b[1..];
    }
  }

  /** Reading back joined entries gives the entries, when none holds a separator. */
  lemma {:induction false} SplitJoin(es: seq<seq<byte>>)
    requires forall i :: 0 <= i < |es| ==> Lacks(es[i], SEMI)
    ensures Split(Join(es)) == [[]] + es
    decreases |es|
  {
    if es != [] {
      var init := es[..|es| - 1];
      var last := es[|es| - 1];
      assert es == init + [last];
      JoinAppend(init, last);
      SplitJoin(init);
      SplitAppend(Join(init), last);
    }
  }

  lemma {:induction false} JoinLacksNul(es: seq<seq<byte>>)
    requires forall i :: 0 <= i < |es| ==> Lacks(es[i], NUL)
    ensures Lacks(Join(es), NUL)
    decreases |es|
  {
    if es != [] {
      JoinLacksNul(es[1..]);
    }
  }

  // ---------------------------------------------------------------------
  // str_buf_add and str_buf_rm as written
  // ---------------------------------------------------------------------

  /**
   * What `str_buf_add` makes of a slice holding `buf`: `EntryAlreadyExists`
   * when the trimmed argument occurs anywhere in the trimmed contents,
   * otherwise the contents followed by `;` and the argument, cut to the
   * slice length and padded with NUL.
   */
  function StrBufAdded(buf: seq<byte>, sRaw: seq<byte>): Result<seq<byte>, Errors>
  {
    var d := TrimNul(buf);
    var s := TrimNul(sRaw);
    if Contains(d, s) then Failure(EntryAlreadyExists)
    else Success(Padded(d + [SEMI] + s, |buf|))
  }

  /**
   * What `str_buf_rm` makes of a slice holding `buf`: `EntryDoesntExist`
   * when the trimmed argument occurs nowhere in the trimmed contents,
   * otherwise the contents with every `;` followed by the argument deleted,
   * padded with NUL.
   */
  function StrBufRemoved(buf: seq<byte>, sRaw: seq<byte>): Result<seq<byte>, Errors>
  {
    var d := TrimNul(buf);
    var s := TrimNul(sRaw);
    if !Contains(d, s) then Failure(EntryDoesntExist)
    else Success(Padded(RemoveAll(d, [SEMI] + s), |buf|))
  }

  /** The zero-filling copy loop both helpers end with, over `data[lo..hi]`. */
  method WritePadded(data: array<byte>, lo: nat, hi: nat, bytes: seq<byte>)
    requires lo <= hi <= data.Length
    modifies data
    ensures data[..] == old(data[..lo]) + Padded(bytes, hi - lo) + old(data[hi..])
  {
    ghost var target := Padded(bytes, hi - lo);
    for i := 0 to hi - lo
      invariant data[..lo] == old(data[..lo]) && data[hi..] == old(data[hi..])
      invariant data[lo..lo + i] == target[..i]
    {
      if i < |bytes| {
        data[lo + i] := bytes[i];
      } else {
        data[lo + i] := NUL;
      }
    }
    assert data[..] == data[..lo] + data[lo..hi] + data[hi..];
  }

  /** `str_buf_add` on the slice `data[lo..hi]`. */
  method StrBufAdd(data: array<byte>, lo: nat, hi: nat, sRaw: seq<byte>) returns (r: Result<(), Errors>)
    requires lo <= hi <= data.Length
    requires ValidUtf8(data[lo..hi]) && ValidUtf8(sRaw)
    modifies data
    ensures StrBufAdded(old(data[lo..hi]), sRaw).Failure? ==>
      r == Failure(StrBufAdded(old(data[lo..hi]), sRaw).error) && data[..] == old(data[..])
    ensures StrBufAdded(old(data[lo..hi]), sRaw).Success? ==>
      r == Success(()) && data[..] == old(data[..lo]) + StrBufAdded(old(data[lo..hi]), sRaw).value + old(data[hi..])
  {
    var d := TrimNul(data[lo..hi]);
    var s := TrimNul(sRaw);
    if Contains(d, s) {
      return Failure(EntryAlreadyExists);
    }
    d := d + [SEMI] + s;
    WritePadded(data, lo, hi, d);
    return Success(());
  }

  /** `str_buf_rm` on the slice `data[lo..hi]`. */
  method StrBufRm(data: array<byte>, lo: nat, hi: nat, sRaw: seq<byte>) returns (r: Result<(), Errors>)
    requires lo <= hi <= data.Length
    requires ValidUtf8(data[lo..hi]) && ValidUtf8(sRaw)
    modifies data
    ensures StrBufRemoved(old(data[lo..hi]), sRaw).Failure? ==>
      r == Failure(StrBufRemoved(old(data[lo..hi]), sRaw).error) && data[..] == old(data[..])
    ensures StrBufRemoved(old(data[lo..hi]), sRaw).Success? ==>
      r == Success(()) && data[..] == old(data[..lo]) + StrBufRemoved(old(data[lo..hi]), sRaw).value + old(data[hi..])
  {
    var d := TrimNul(data[lo..hi]);
    var s := TrimNul(sRaw);
    if !Contains(d, s) {
      return Failure(EntryDoesntExist);
    }
    var n := RemoveAll(d, [SEMI] + s);
    WritePadded(data, lo, hi, n);
    return Success(());
  }

  /**
   * `str_buf_add` refuses exactly the arguments whose trimmed text occurs in
   * the trimmed contents; in particular it always refuses an argument that
   * is all NUL. A refused call leaves the slice as it was, an accepted one
   * keeps its length.
   */
  lemma StrBufAddedOutcome(buf: seq<byte>, sRaw: seq<byte>)
    ensures StrBufAdded(buf, sRaw).Failure? <==>
      exists i :: OccursAt(TrimNul(buf), TrimNul(sRaw), i)
    ensures StrBufAdded(buf, sRaw).Failure? ==> StrBufAdded(buf, sRaw).error == EntryAlreadyExists
    ensures AllNul(sRaw) ==> StrBufAdded(buf, sRaw) == Failure(EntryAlreadyExists)
    ensures StrBufAdded(buf, sRaw).Success? ==> |StrBufAdded(buf, sRaw).value| == |buf|
  {
    if AllNul(sRaw) {
      assert OccursAt(TrimNul(buf), TrimNul(sRaw), 0);
    }
  }

  /** Writing a text that fits the slice: the NUL padding is invisible to the reader. */
  lemma RemoveNulsOfPadded(content: seq<byte>, n: nat)
    requires |content| <= n
    ensures RemoveNuls(Padded(content, n)) == RemoveNuls(content)
  {
    PaddedFits(content, n);
    var zeros := seq(n - |content|, _ => NUL);
    RemoveNulsAppend(content, zeros);
    RemoveNulsAllNul(zeros);
  }

  /** A text without separators before `;`-joined entries forms the first piece only. */
  lemma {:induction false} SplitPrefix(p: seq<byte>, x: seq<byte>)
    requires Lacks(p, SEMI)
    ensures Split(p + x) == [p + Split(x)[0]] + Split(x)[1..]
    decreases |p|
  {
    if p == [] {
      var sx := Split(x);
      assert p + x == x;
      assert p + sx[0] == sx[0];
      assert [sx[0]] + sx[1..] == sx;
    } else {
      assert (p + x)[1..] == p[1..] + x;
      SplitPrefix(p[1..], x);
      assert [p[0]] + (p[1..] + Split(x)[0]) == p + Split(x)[0];
    }
  }

  /**
   * The client reads back exactly the joined entries, whatever first piece
   * precedes them and whatever NUL padding follows.
   */
  lemma ClientEntriesOfJoin(p: seq<byte>, es: seq<seq<byte>>, z: seq<byte>)
    requires Lacks(p, SEMI) && Lacks(p, NUL) && AllNul(z)
    requires forall i :: 0 <= i < |es| ==> Lacks(es[i], SEMI) && Lacks(es[i], NUL)
    ensures ClientEntries(p + Join(es) + z) == es
  {
    JoinLacksNul(es);
    RemoveNulsAppend(p + Join(es), z);
    RemoveNulsAllNul(z);
    RemoveNulsAppend(p, Join(es));
    assert RemoveNuls(p + Join(es) + z) == p + Join(es);
    SplitJoin(es);
    SplitPrefix(p, Join(es));
  }

  lemma RemoveNulsOfEntry(d: seq<byte>, s: seq<byte>)
    requires Lacks(s, NUL)
    ensures RemoveNuls(d + [SEMI] + s) == RemoveNuls(d) + [SEMI] + s
  {
    RemoveNulsAppend(d + [SEMI], s);
    RemoveNulsAppend(d, [SEMI]);
    assert RemoveNuls([SEMI]) == [SEMI];
  }

  /**
   * When the new text fits the slice and the argument holds neither `;` nor
   * NUL, the client reads the old entries followed by the new one.
   */
  lemma AppendEntryReads(buf: seq<byte>, s: seq<byte>)
    requires |TrimNul(buf)| + 1 + |s| <= |buf|
    requires Lacks(s, SEMI) && Lacks(s, NUL)
    ensures ClientEntries(Padded(TrimNul(buf) + [SEMI] + s, |buf|)) == ClientEntries(buf) + [s]
  {
    var d := TrimNul(buf);
    RemoveNulsOfPadded(d + [SEMI] + s, |buf|);
    RemoveNulsOfEntry(d, s);
    ClientEntriesOfTrimmed(buf);
    var x := RemoveNuls(d);
    SplitAppend(x, s);
    assert (Split(x) + [s])[1..] == Split(x)[1..] + [s];
  }

  /** `str_buf_add` as written appends the entry when it fits and holds neither `;` nor NUL. */
  lemma StrBufAddAppends(buf: seq<byte>, sRaw: seq<byte>)
    requires StrBufAdded(buf, sRaw).Success?
    requires |TrimNul(buf)| + 1 + |TrimNul(sRaw)| <= |buf|
    requires Lacks(TrimNul(sRaw), SEMI) && Lacks(TrimNul(sRaw), NUL)
    ensures ClientEntries(StrBufAdded(buf, sRaw).value) == ClientEntries(buf) + [TrimNul(sRaw)]
  {
    AppendEntryReads(buf, TrimNul(sRaw));
  }

  /**
   * `str_buf_rm` never needs more room than it had: the new text is the
   * deletion result in full, followed by NUL padding.
   */
  lemma StrBufRmFits(buf: seq<byte>, sRaw: seq<byte>)
    requires StrBufRemoved(buf, sRaw).Success?
    ensures var n := RemoveAll(TrimNul(buf), [SEMI] + TrimNul(sRaw));
      StrBufRemoved(buf, sRaw).value == n + seq(|buf| - |n|, _ => NUL)
  {
    var n := RemoveAll(TrimNul(buf), [SEMI] + TrimNul(sRaw));
    PaddedFits(n, |buf|);
  }

  // ---------------------------------------------------------------------
  // Discrepancies of the helpers as written, and corrected helpers
  // ---------------------------------------------------------------------

  const A: byte := 0x61
  const B: byte := 0x62
  const C: byte := 0x63

  lemma {:induction false} LeadingNulsIs(s: seq<byte>, j: nat)
    requires j <= |s| && AllNul(s[..j]) && (j < |s| ==> s[j] != NUL)
    ensures LeadingNuls(s) == j
    decreases j
  {
    if j > 0 {
      assert s[0] == s[..j][0];
      assert s[1..][..j - 1] == s[..j][1..];
      LeadingNulsIs(s[1..], j - 1);
    }
  }

  lemma {:induction false} TrailingNulsIs(s: seq<byte>, t: nat)
    requires t <= |s| && AllNul(s[|s| - t..]) && (t < |s| ==> s[|s| - t - 1] != NUL)
    ensures TrailingNuls(s) == t
    decreases t
  {
    if t > 0 {
      var init := s[..|s| - 1];
      var tail := s[|s| - t..];
      assert s[|s| - 1] == tail[t - 1];
      assert init[|init| - (t - 1)..] == tail[..t - 1];
      assert t - 1 < |init| ==> init[|init| - (t - 1) - 1] == s[|s| - t - 1];
      TrailingNulsIs(init, t - 1);
    }
  }

  /** Trimming a text framed by NUL runs gives the text, when it neither starts nor ends with NUL. */
  lemma TrimNulOf(z1: seq<byte>, c: seq<byte>, z2: seq<byte>)
    requires AllNul(z1) && AllNul(z2) && c != [] && c[0] != NUL && c[|c| - 1] != NUL
    ensures TrimNul(z1 + c + z2) == c
  {
    var s := z1 + c + z2;
    assert s[..|z1|] == z1;
    LeadingNulsIs(s, |z1|);
    assert s[|s| - |z2|..] == z2;
    TrailingNulsIs(s, |z2|);
    assert s[|z1|..|s| - |z2|] == c;
  }

  lemma TrimNulNoPadding(c: seq<byte>)
    requires c != [] && c[0] != NUL && c[|c| - 1] != NUL
    ensures TrimNul(c) == c
  {
    TrimNulOf([], c, []);
    assert [] + c + [] == c;
  }

  lemma RemoveAllExampleA()
    ensures RemoveAll([SEMI, A, B, SEMI, C], [SEMI, A]) == [B, SEMI, C]
  {
    var pat: seq<byte> := [SEMI, A];
    assert RemoveAll([C], pat) == [C] + RemoveAll([], pat);
    assert [SEMI, C][..2][1] != pat[1];
    assert [SEMI, C][1..] == [C];
    assert RemoveAll([SEMI, C], pat) == [SEMI, C];
    assert [B, SEMI, C][..2][0] != pat[0];
    assert [B, SEMI, C][1..] == [SEMI, C];
    assert RemoveAll([B, SEMI, C], pat) == [B, SEMI, C];
    assert [SEMI, A, B, SEMI, C][..2] == pat;
    assert [SEMI, A, B, SEMI, C][2..] == [B, SEMI, C];
  }

  lemma RemoveAllExampleSemi()
    ensures RemoveAll([SEMI, A, SEMI, B], [SEMI]) == [A, B]
  {
    var pat: seq<byte> := [SEMI];
    assert RemoveAll([B], pat) == [B] + RemoveAll([], pat);
    assert [SEMI, B][..1] == pat;
    assert [SEMI, B][1..] == [B];
    assert RemoveAll([SEMI, B], pat) == [B];
    assert [A, SEMI, B][..1][0] != pat[0];
    assert [A, SEMI, B][1..] == [SEMI, B];
    assert RemoveAll([A, SEMI, B], pat) == [A, B];
    assert [SEMI, A, SEMI, B][..1] == pat;
    assert [SEMI, A, SEMI, B][1..] == [A, SEMI, B];
  }

  lemma EntriesAbC()
    ensures ClientEntries([SEMI, A, B, SEMI, C, NUL]) == [[A, B], [C]]
  {
    assert Join([[C]]) == [SEMI, C];
    assert Join([[A, B], [C]]) == [SEMI, A, B, SEMI, C];
    assert [SEMI, A, B, SEMI, C, NUL] == [] + Join([[A, B], [C]]) + [NUL];
    ClientEntriesOfJoin([], [[A, B], [C]], [NUL]);
  }

  lemma TrimmedAbC()
    ensures TrimNul([SEMI, A, B, SEMI, C, NUL]) == [SEMI, A, B, SEMI, C]
    ensures TrimNul([A, NUL]) == [A]
  {
    TrimOneNul([SEMI, A, B, SEMI, C]);
    assert [SEMI, A, B, SEMI, C] + [NUL] == [SEMI, A, B, SEMI, C, NUL];
    TrimOneNul([A]);
    assert [A] + [NUL] == [A, NUL];
  }

  lemma TrimOneNul(c: seq<byte>)
    requires c != [] && c[0] != NUL && c[|c| - 1] != NUL
    ensures TrimNul(c + [NUL]) == c
  {
    assert c + [NUL] == [] + c + [NUL];
    TrimNulOf([], c, [NUL]);
  }

  /**
   * Removing `a` from the list `[ab, c]` is accepted although `a` is not
   * an entry, and it destroys the entry `ab`: the client reads `[c]`.
   */
  lemma RmSubstringCorruptsNeighbour()
    ensures ClientEntries([SEMI, A, B, SEMI, C, NUL]) == [[A, B], [C]]
    ensures StrBufRemoved([SEMI, A, B, SEMI, C, NUL], [A, NUL]) == Success([B, SEMI, C, NUL, NUL, NUL])
    ensures ClientEntries([B, SEMI, C, NUL, NUL, NUL]) == [[C]]
  {
    EntriesAbC();
    RemovedAFromAbC();
    EntriesBC();
  }

  lemma RemovedAFromAbC()
    ensures StrBufRemoved([SEMI, A, B, SEMI, C, NUL], [A, NUL]) == Success([B, SEMI, C, NUL, NUL, NUL])
  {
    TrimmedAbC();
    assert OccursAt([SEMI, A, B, SEMI, C], [A], 1);
    RemoveAllExampleA();
    assert [SEMI] + [A] == [SEMI, A];
    PaddedFits([B, SEMI, C], 6);
    assert seq(3, _ => NUL) == [NUL, NUL, NUL];
    assert [B, SEMI, C] + [NUL, NUL, NUL] == [B, SEMI, C, NUL, NUL, NUL];
  }

  lemma EntriesBC()
    ensures ClientEntries([B, SEMI, C, NUL, NUL, NUL]) == [[C]]
  {
    assert Join([[C]]) == [SEMI, C];
    assert [B, SEMI, C, NUL, NUL, NUL] == [B] + Join([[C]]) + [NUL, NUL, NUL];
    ClientEntriesOfJoin([B], [[C]], [NUL, NUL, NUL]);
  }

  /**
   * Removing an all-NUL argument is accepted and deletes every separator,
   * so the list `[a, b]` reads back as empty.
   */
  lemma RmEmptyMergesEntries()
    ensures ClientEntries([SEMI, A, SEMI, B]) == [[A], [B]]
    ensures StrBufRemoved([SEMI, A, SEMI, B], [NUL, NUL]) == Success([A, B, NUL, NUL])
    ensures ClientEntries([A, B, NUL, NUL]) == []
  {
    EntriesASemiB();
    RemovedEmptyFromASemiB();
    EntriesMergedAB();
  }

  lemma EntriesASemiB()
    ensures ClientEntries([SEMI, A, SEMI, B]) == [[A], [B]]
  {
    assert Join([[B]]) == [SEMI, B];
    assert Join([[A], [B]]) == [SEMI, A, SEMI, B];
    assert [SEMI, A, SEMI, B] == [] + Join([[A], [B]]) + [];
    ClientEntriesOfJoin([], [[A], [B]], []);
  }

  lemma RemovedEmptyFromASemiB()
    ensures StrBufRemoved([SEMI, A, SEMI, B], [NUL, NUL]) == Success([A, B, NUL, NUL])
  {
    var buf: seq<byte> := [SEMI, A, SEMI, B];
    TrimNulNoPadding(buf);
    assert AllNul([NUL, NUL]);
    assert OccursAt(buf, [], 0);
    RemoveAllExampleSemi();
    assert [SEMI] + [] == [SEMI];
    PaddedFits([A, B], 4);
    assert seq(2, _ => NUL) == [NUL, NUL];
    assert [A, B] + [NUL, NUL] == [A, B, NUL, NUL];
  }

  lemma EntriesMergedAB()
    ensures ClientEntries([A, B, NUL, NUL]) == []
  {
    assert [A, B, NUL, NUL] == [A, B] + Join([]) + [NUL, NUL];
    ClientEntriesOfJoin([A, B], [], [NUL, NUL]);
  }

  /** Adding `a` to the list `[ab]` is refused although `a` is not an entry. */
  lemma AddRefusesSubstring()
    ensures ClientEntries([SEMI, A, B, NUL]) == [[A, B]]
    ensures StrBufAdded([SEMI, A, B, NUL], [A]) == Failure(EntryAlreadyExists)
  {
    EntriesAb();
    AddedAToAb();
  }

  lemma EntriesAb()
    ensures ClientEntries([SEMI, A, B, NUL]) == [[A, B]]
  {
    assert Join([[A, B]]) == [SEMI, A, B];
    assert [SEMI, A, B, NUL] == [] + Join([[A, B]]) + [NUL];
    ClientEntriesOfJoin([], [[A, B]], [NUL]);
  }

  lemma AddedAToAb()
    ensures StrBufAdded([SEMI, A, B, NUL], [A]) == Failure(EntryAlreadyExists)
  {
    var d: seq<byte> := [SEMI, A, B];
    assert [SEMI, A, B, NUL] == d + [NUL];
    TrimOneNul(d);
    TrimNulNoPadding([A]);
    assert OccursAt(d, [A], 1);
  }

  lemma AsciiThenLeadIsInvalid(x: seq<byte>)
    requires AllAscii(x)
    ensures !ValidUtf8(x + [0xC3])
  {
    AsciiPrefix(x, [0xC3]);
  }

  const D: byte := 0x64
  const E: byte := 0x65

  /** `k` copies of one byte. */
  function Run(b: byte, k: nat): seq<byte>
  {
    seq(k, _ => b)
  }

  lemma AsciiValid(s: seq<byte>)
    requires AllAscii(s)
    ensures ValidUtf8(s)
  {
    AsciiPrefix(s, []);
    assert s + [] == s;
  }

  /** A pattern holding a byte the text lacks occurs nowhere in it. */
  lemma AbsentByteNotContained(d: seq<byte>, pat: seq<byte>, j: nat)
    requires j < |pat| && Lacks(d, pat[j])
    ensures !Contains(d, pat)
  {
  }

  /** The `[u8; 128]` argument naming an entry of 111 copies of `c`. */
  function LetterArg(c: byte): Bytes128
  {
    Run(c, 111) + Run(NUL, 17)
  }

  /** That entry as stored: `;` then the 111 letters. */
  function LetterEntry(c: byte): seq<byte>
  {
    [SEMI] + Run(c, 111)
  }

  /**
   * Adding a letter entry to a 512-byte slice holding contents `d` that
   * lack the letter is accepted and appends the entry.
   */
  lemma AddLetterEntry(d: seq<byte>, c: byte, z: nat)
    requires c != NUL && Lacks(d, c) && |d| + z == 512 && z >= 112
    requires d == [] || (d[0] != NUL && d[|d| - 1] != NUL)
    ensures StrBufAdded(d + Run(NUL, z), LetterArg(c)) == Success(d + LetterEntry(c) + Run(NUL, z - 112))
  {
    TrimPadded(d, z);
    TrimLetterArg(c);
    AbsentByteNotContained(d, Run(c, 111), 0);
    assert d + [SEMI] + Run(c, 111) == d + LetterEntry(c);
    PaddedRun(d + LetterEntry(c), 512);
  }

  lemma TrimLetterArg(c: byte)
    requires c != NUL
    ensures TrimNul(LetterArg(c)) == Run(c, 111)
  {
    TrimPadded(Run(c, 111), 17);
  }

  /** Contents followed by NULs trim back to the contents. */
  lemma TrimPadded(d: seq<byte>, z: nat)
    requires d == [] || (d[0] != NUL && d[|d| - 1] != NUL)
    ensures TrimNul(d + Run(NUL, z)) == d
  {
    if d == [] {
      assert AllNul(d + Run(NUL, z));
    } else {
      TrimNulOf([], d, Run(NUL, z));
      assert [] + d + Run(NUL, z) == d + Run(NUL, z);
    }
  }

  lemma PaddedRun(content: seq<byte>, n: nat)
    requires |content| <= n
    ensures Padded(content, n) == content + Run(NUL, n - |content|)
  {
    var p, q := Padded(content, n), content + Run(NUL, n - |content|);
    assert forall i :: 0 <= i < n ==> p[i] == q[i];
  }

  /** The `[u8; 128]` argument of 62 letters `e` then U+00E9 (C3 A9), NUL-padded. */
  function CutArg(): Bytes128
  {
    Run(E, 62) + [0xC3, 0xA9] + Run(NUL, 64)
  }

  /**
   * On a slice holding 448 bytes of ASCII text, adding `CutArg()` is
   * accepted and the 513-byte text is cut between C3 and A9.
   */
  lemma AddCutsCharacter(d: seq<byte>)
    requires |d| == 448 && AllAscii(d) && d[0] != NUL && d[447] != NUL
    ensures StrBufAdded(d + Run(NUL, 64), CutArg()) == Success(d + [SEMI] + Run(E, 62) + [0xC3])
    ensures !ValidUtf8(d + [SEMI] + Run(E, 62) + [0xC3])
  {
    var x := d + [SEMI] + Run(E, 62);
    CutArgAccepted(d);
    assert d + [SEMI] + (Run(E, 62) + [0xC3, 0xA9]) == x + [0xC3, 0xA9];
    PaddedDropsLast(x, 0xC3, 0xA9);
    AsciiThenLeadIsInvalid(x);
  }

  lemma CutArgAccepted(d: seq<byte>)
    requires AllAscii(d) && d != [] && d[0] != NUL && d[|d| - 1] != NUL
    ensures StrBufAdded(d + Run(NUL, 64), CutArg())
      == Success(Padded(d + [SEMI] + (Run(E, 62) + [0xC3, 0xA9]), |d| + 64))
  {
    var c := Run(E, 62) + [0xC3, 0xA9];
    TrimPadded(d, 64);
    TrimCutArg();
    assert Lacks(d, 0xC3);
    AbsentByteNotContained(d, c, 62);
  }

  lemma TrimCutArg()
    ensures TrimNul(CutArg()) == Run(E, 62) + [0xC3, 0xA9]
  {
    TrimPadded(Run(E, 62) + [0xC3, 0xA9], 64);
  }

  lemma PaddedDropsLast(x: seq<byte>, a: byte, b: byte)
    ensures Padded(x + [a, b], |x| + 1) == x + [a]
  {
    var p := Padded(x + [a, b], |x| + 1);
    assert forall i :: 0 <= i <= |x| ==> p[i] == (x + [a])[i];
  }

  /** The contents after adding the letter entries of `a`, `b`, `c` and `d` in turn. */
  function FourEntries(): seq<byte>
  {
    LetterEntry(A) + LetterEntry(B) + LetterEntry(C) + LetterEntry(D)
  }

  lemma FourEntriesAdded()
    ensures StrBufAdded(Run(NUL, 512), LetterArg(A)) == Success(LetterEntry(A) + Run(NUL, 400))
    ensures StrBufAdded(LetterEntry(A) + Run(NUL, 400), LetterArg(B))
      == Success(LetterEntry(A) + LetterEntry(B) + Run(NUL, 288))
    ensures StrBufAdded(LetterEntry(A) + LetterEntry(B) + Run(NUL, 288), LetterArg(C))
      == Success(LetterEntry(A) + LetterEntry(B) + LetterEntry(C) + Run(NUL, 176))
    ensures StrBufAdded(LetterEntry(A) + LetterEntry(B) + LetterEntry(C) + Run(NUL, 176), LetterArg(D))
      == Success(FourEntries() + Run(NUL, 64))
  {
    AddedEntryA();
    AddedEntryB();
    AddedEntryC();
    AddedEntryD();
  }

  lemma AddedEntryA()
    ensures StrBufAdded(Run(NUL, 512), LetterArg(A)) == Success(LetterEntry(A) + Run(NUL, 400))
  {
    var e1 := LetterEntry(A);
    AddLetterEntry([], A, 512);
    assert [] + Run(NUL, 512) == Run(NUL, 512);
    assert [] + e1 == e1;
  }

  lemma AddedEntryB()
    ensures StrBufAdded(LetterEntry(A) + Run(NUL, 400), LetterArg(B))
      == Success(LetterEntry(A) + LetterEntry(B) + Run(NUL, 288))
  {
    var e1 := LetterEntry(A);
    EntryLacks(A, B);
    assert e1[0] == SEMI && e1[111] == A;
    AddLetterEntry(e1, B, 400);
  }

  lemma AddedEntryC()
    ensures StrBufAdded(LetterEntry(A) + LetterEntry(B) + Run(NUL, 288), LetterArg(C))
      == Success(LetterEntry(A) + LetterEntry(B) + LetterEntry(C) + Run(NUL, 176))
  {
    var e2 := LetterEntry(A) + LetterEntry(B);
    EntryLacks(A, C);
    EntryLacks(B, C);
    LacksAppend(LetterEntry(A), LetterEntry(B), C);
    assert e2[0] == SEMI && e2[223] == B;
    AddLetterEntry(e2, C, 288);
  }

  lemma AddedEntryD()
    ensures StrBufAdded(LetterEntry(A) + LetterEntry(B) + LetterEntry(C) + Run(NUL, 176), LetterArg(D))
      == Success(FourEntries() + Run(NUL, 64))
  {
    var e3 := LetterEntry(A) + LetterEntry(B) + LetterEntry(C);
    ThreeEntriesLackD();
    assert e3[0] != NUL && e3[|e3| - 1] != NUL;
    AddLetterEntry(e3, D, 176);
    assert e3 + LetterEntry(D) == FourEntries();
  }

  lemma ThreeEntriesLackD()
    ensures var e3 := LetterEntry(A) + LetterEntry(B) + LetterEntry(C);
      |e3| == 336 && e3[0] == SEMI && e3[335] == C && Lacks(e3, D)
  {
    var e2 := LetterEntry(A) + LetterEntry(B);
    EntryLacks(A, D);
    EntryLacks(B, D);
    EntryLacks(C, D);
    LacksAppend(LetterEntry(A), LetterEntry(B), D);
    LacksAppend(e2, LetterEntry(C), D);
  }

  lemma EntryLacks(x: byte, c: byte)
    requires x != c && c != SEMI
    ensures Lacks(LetterEntry(x), c)
  {
  }

  lemma LacksAppend(p: seq<byte>, q: seq<byte>, b: byte)
    requires Lacks(p, b) && Lacks(q, b)
    ensures Lacks(p + q, b)
  {
  }

  /** Every slice and argument of `FourEntriesAdded` is well-formed, so none of its `unwrap`s panics. */
  lemma FourEntriesValid()
    ensures forall c: byte :: c <= 0x7F ==> ValidUtf8(LetterArg(c))
    ensures ValidUtf8(Run(NUL, 512))
    ensures ValidUtf8(LetterEntry(A) + Run(NUL, 400))
    ensures ValidUtf8(LetterEntry(A) + LetterEntry(B) + Run(NUL, 288))
    ensures ValidUtf8(LetterEntry(A) + LetterEntry(B) + LetterEntry(C) + Run(NUL, 176))
  {
    forall c: byte | c <= 0x7F
      ensures ValidUtf8(LetterArg(c))
    {
      AsciiValid(LetterArg(c));
    }
    AsciiValid(Run(NUL, 512));
    AsciiValid(LetterEntry(A) + Run(NUL, 400));
    AsciiValid(LetterEntry(A) + LetterEntry(B) + Run(NUL, 288));
    AsciiValid(LetterEntry(A) + LetterEntry(B) + LetterEntry(C) + Run(NUL, 176));
  }

  /**
   * A `str_buf_add` that can really happen splits a character: starting
   * from an empty 512-byte slice, four adds of 128-byte arguments
   * (`LetterArg`) are accepted and fill 448 bytes; the fifth, `CutArg()`,
   * is accepted too and leaves the slice ending in a lone C3 byte. Every
   * slice and argument before that is well-formed UTF-8, so no earlier
   * `unwrap` panics; every later add or remove on this slice does.
   */
  lemma AddTruncationBreaksUtf8()
    ensures StrBufAdded(FourEntries() + Run(NUL, 64), CutArg()).Success?
    ensures ValidUtf8(FourEntries() + Run(NUL, 64)) && ValidUtf8(CutArg())
    ensures !ValidUtf8(StrBufAdded(FourEntries() + Run(NUL, 64), CutArg()).value)
  {
    var d := FourEntries();
    FourEntriesAscii();
    AsciiValid(d + Run(NUL, 64));
    CutArgValid();
    AddCutsCharacter(d);
  }

  lemma FourEntriesAscii()
    ensures |FourEntries()| == 448 && FourEntries()[0] == SEMI && FourEntries()[447] == D
    ensures AllAscii(FourEntries() + Run(NUL, 64))
  {
  }

  lemma CutArgValid()
    ensures ValidUtf8(CutArg())
  {
    AsciiPrefix(Run(E, 62), [0xC3, 0xA9] + Run(NUL, 64));
    assert ValidUtf8([0xC3, 0xA9]) by {
      assert [0xC3, 0xA9][..2] == [0xC3, 0xA9];
      assert [0xC3, 0xA9][2..] == [];
    }
    AsciiValid(Run(NUL, 64));
    ValidAppend([0xC3, 0xA9], Run(NUL, 64));
    assert Run(E, 62) + ([0xC3, 0xA9] + Run(NUL, 64)) == CutArg();
  }


  /** The list with every copy of one entry removed. */
  function Without(es: seq<seq<byte>>, e: seq<byte>): (r: seq<seq<byte>>)
    ensures forall x :: x in r <==> x in es && x != e
    ensures |Join(r)| <= |Join(es)|
  {
    if es == [] then []
    else if es[0] == e then Without(es[1..], e)
    else
      assert es == [es[0]] + es[1..];
      [es[0]] + Without(es[1..], e)
  }

  /**
   * Corrected `str_buf_add`: refuses an empty argument or one already in
   * the list (`EntryAlreadyExists`), an entry that would not fit the slice
   * (`Error`) and one holding `;` or NUL (`NotAllowed`); otherwise appends
   * it as `str_buf_add` does.
   */
  function AddEntry(buf: seq<byte>, sRaw: seq<byte>): Result<seq<byte>, Errors>
  {
    var d := TrimNul(buf);
    var s := TrimNul(sRaw);
    if s == [] || s in ClientEntries(buf) then Failure(EntryAlreadyExists)
    else if |d| + 1 + |s| > |buf| then Failure(Error)
    else if !Lacks(s, SEMI) || !Lacks(s, NUL) then Failure(NotAllowed)
    else Success(Padded(d + [SEMI] + s, |buf|))
  }

  /**
   * The corrected add appends exactly the new entry, refuses exactly the
   * arguments already listed (or empty), and keeps the slice well-formed.
   */
  lemma AddEntryAppends(buf: seq<byte>, sRaw: seq<byte>)
    requires ValidUtf8(buf) && ValidUtf8(sRaw)
    ensures AddEntry(buf, sRaw) == Failure(EntryAlreadyExists) <==>
      TrimNul(sRaw) == [] || TrimNul(sRaw) in ClientEntries(buf)
    ensures AddEntry(buf, sRaw).Success? ==>
      ClientEntries(AddEntry(buf, sRaw).value) == ClientEntries(buf) + [TrimNul(sRaw)]
      && ValidUtf8(AddEntry(buf, sRaw).value)
      && |AddEntry(buf, sRaw).value| == |buf|
  {
    if AddEntry(buf, sRaw).Success? {
      var d := TrimNul(buf);
      var s := TrimNul(sRaw);
      AppendEntryReads(buf, s);
      TrimNulValid(buf);
      TrimNulValid(sRaw);
      PaddedEntryValid(d, s, |buf|);
    }
  }

  /** Appending `;` and a well-formed entry to well-formed contents, NUL-padded, stays well-formed. */
  lemma PaddedEntryValid(d: seq<byte>, s: seq<byte>, n: nat)
    requires ValidUtf8(d) && ValidUtf8(s) && |d| + 1 + |s| <= n
    ensures ValidUtf8(Padded(d + [SEMI] + s, n))
  {
    assert ValidUtf8([SEMI]) by {
      assert [SEMI][..1] == [SEMI];
      assert [SEMI][1..] == [];
    }
    ValidAppend(d, [SEMI]);
    ValidAppend(d + [SEMI], s);
    var content := d + [SEMI] + s;
    PaddedFits(content, n);
    var zeros := seq(n - |content|, _ => NUL);
    AsciiPrefix(zeros, []);
    assert zeros + [] == zeros;
    ValidAppend(content, zeros);
  }

  /**
   * Corrected `str_buf_rm`: removes exactly the listed entry, and refuses
   * (`EntryDoesntExist`) an argument that is not an entry.
   */
  function RemoveEntry(buf: seq<byte>, sRaw: seq<byte>): Result<seq<byte>, Errors>
  {
    var s := TrimNul(sRaw);
    var es := ClientEntries(buf);
    if s !in es then Failure(EntryDoesntExist)
    else Success(Padded(Join(Without(es, s)), |buf|))
  }

  /** The client reads the old list without the removed entry, and nothing else changes. */
  lemma RemoveEntryRemoves(buf: seq<byte>, sRaw: seq<byte>)
    ensures RemoveEntry(buf, sRaw).Failure? <==> TrimNul(sRaw) !in ClientEntries(buf)
    ensures RemoveEntry(buf, sRaw).Failure? ==> RemoveEntry(buf, sRaw).error == EntryDoesntExist
    ensures RemoveEntry(buf, sRaw).Success? ==>
      ClientEntries(RemoveEntry(buf, sRaw).value) == Without(ClientEntries(buf), TrimNul(sRaw))
      && |RemoveEntry(buf, sRaw).value| == |buf|
  {
    var s := TrimNul(sRaw);
    var es := ClientEntries(buf);
    if s in es {
      var w := Without(es, s);
      var parts := Split(RemoveNuls(buf));
      assert |Join(es)| <= |RemoveNuls(buf)|;
      forall i | 0 <= i < |w|
        ensures Lacks(w[i], SEMI) && Lacks(w[i], NUL)
      {
        assert w[i] in es;
      }
      PaddedFits(Join(w), |buf|);
      var zeros := seq(|buf| - |Join(w)|, _ => NUL);
      assert Padded(Join(w), |buf|) == [] + Join(w) + zeros;
      ClientEntriesOfJoin([], w, zeros);
    }
  }

  /** On the list `[ab, c]` the corrected remove refuses `a` and leaves the slice untouched. */
  lemma RemoveEntryRefusesSubstring()
    ensures RemoveEntry([SEMI, A, B, SEMI, C, NUL], [A, NUL]) == Failure(EntryDoesntExist)
  {
    EntriesAbC();
    TrimmedAbC();
  }
}
