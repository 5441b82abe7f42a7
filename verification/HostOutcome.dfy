/**
 * What a host accepts from the packets of a datagram wherever it starts in a run: outside the window it is
 * not always nothing.
 */
module HostOutcome {
  import opened Packets
  import opened Fragment
  import opened Reassembly

  predicate Numbers(message: seq<Byte>, js: seq<nat>) {
    forall k :: 0 <= k < |js| ==> js[k] < Count(message)
  }

  /** These chunks of the message one after the other. */
  function Join(message: seq<Byte>, js: seq<nat>): seq<Byte>
    requires Numbers(message, js)
  {
    if js == [] then [] else Chunk(message, js[0]) + Join(message, js[1..])
  }

  /**
   * Fragments that follow one another from place r of a window for a host, in a datagram that starts after
   * n fragments of the run: each has the offset of its place, and only the last one ends the message.
   */
  predicate Trail(message: seq<Byte>, n: nat, r: nat, js: seq<nat>) {
    && js != [] && Numbers(message, js)
    && js[|js| - 1] + 1 == Count(message) && (n + js[|js| - 1]) % 0x4000 == r + |js| - 1
    && forall k :: 0 <= k < |js| - 1 ==> js[k] + 1 < Count(message) && (n + js[k]) % 0x2000 == r + k
  }

  // ---------------------------------------------------------------- one fragment

  lemma SentAt(message: seq<Byte>, n: nat, j: nat, r: nat)
    requires j < Count(message) && OFFSET_STEP * r < 0x2000
    ensures var f := FragmentAt(message, OFFSET_STEP * n, j);
      && (f.offset == OFFSET_STEP * r <==> (n + j) % 0x2000 == r)
      && (f.offset == OFFSET_STEP * r && !f.more <==> j + 1 == Count(message) && (n + j) % 0x4000 == r)
  {
    hide OffsetBits, MoreBit, Count;
    OffsetAt(n + j, r);
    assert OFFSET_STEP * (n + j) == OFFSET_STEP * n + OFFSET_STEP * j;
    assert (n + j) % 0x4000 == r ==> (n + j) % 0x2000 == r;
  }

  lemma FragmentShape(message: seq<Byte>, base: nat, j: nat)
    requires j < Count(message)
    ensures var f := FragmentAt(message, base, j);
      && f.offset < 0x2000 && f.payload == Chunk(message, j)
      && (j + 1 < Count(message) ==> |f.payload| == FRAGMENT_SIZE && f.more)
  {
  }

  /** A message can only be assembled if its last fragment ends it. */
  lemma LastEnds(message: seq<Byte>, base: nat, offset: nat, m: seq<Byte>)
    requires message != [] && Assembles(SentFragments(message, base), offset, m)
    ensures !FragmentAt(message, base, Count(message) - 1).more
  {
    hide Assembles, Count, Chunk;
    if FragmentAt(message, base, Count(message) - 1).more {
      NeverEnds(SentFragments(message, base), offset, m);
    }
  }

  // ---------------------------------------------------------------- trails and assemblies

  lemma TrailCons(message: seq<Byte>, n: nat, r: nat, j: nat, js: seq<nat>)
    requires Trail(message, n, r + 1, js) && j + 1 < Count(message) && (n + j) % 0x2000 == r
    ensures Trail(message, n, r, [j] + js)
    ensures Join(message, [j] + js) == Chunk(message, j) + Join(message, js)
  {
    hide Count;
    assert ([j] + js)[1..] == js;
  }

  lemma {:induction false} AssembledTrail(message: seq<Byte>, n: nat, r: nat, m: seq<Byte>) returns (js: seq<nat>)
    requires message != [] && Assembles(SentFragments(message, OFFSET_STEP * n), OFFSET_STEP * r, m)
    ensures Trail(message, n, r, js) && m == Join(message, js) && Fits(OFFSET_STEP * r, m)
    decreases |m|
  {
    hide Assembles, Count, Chunk, FragmentAt, Trail;
    var sent := SentFragments(message, OFFSET_STEP * n);
    var f := Piece(sent, OFFSET_STEP * r, m);
    var j :| 0 <= j < Count(message) && f == FragmentAt(message, OFFSET_STEP * n, j);
    FragmentShape(message, OFFSET_STEP * n, j);
    SentAt(message, n, j, r);
    if !f.more {
      js := [j];
      OneTrail(message, n, r, j);
    } else {
      LastEnds(message, OFFSET_STEP * n, OFFSET_STEP * r, m);
      assert OFFSET_STEP * r + |f.payload| / 8 == OFFSET_STEP * (r + 1);
      js := AssembledTrail(message, n, r + 1, m[|f.payload|..]);
      TrailCons(message, n, r, j, js);
      js := [j] + js;
    }
  }

  lemma OneTrail(message: seq<Byte>, n: nat, r: nat, j: nat)
    requires j + 1 == Count(message) && (n + j) % 0x4000 == r
    ensures Trail(message, n, r, [j]) && Join(message, [j]) == Chunk(message, j)
  {
    hide Count, Chunk;
    assert [j][1..] == [];
  }

  lemma TrailTail(message: seq<Byte>, n: nat, r: nat, js: seq<nat>)
    requires Trail(message, n, r, js) && |js| > 1
    ensures Trail(message, n, r + 1, js[1..])
  {
    hide Count;
    var tail := js[1..];
    forall k | 0 <= k < |tail| - 1 ensures tail[k] + 1 < Count(message) && (n + tail[k]) % 0x2000 == r + 1 + k {
      assert tail[k] == js[k + 1];
    }
  }

  lemma {:induction false} TrailAssembles(message: seq<Byte>, n: nat, r: nat, js: seq<nat>)
    requires Trail(message, n, r, js) && Fits(OFFSET_STEP * r, Join(message, js))
    ensures Assembles(SentFragments(message, OFFSET_STEP * n), OFFSET_STEP * r, Join(message, js))
    decreases |js|
  {
    hide Assembles, Count, Chunk, FragmentAt, SentFragments;
    var m, f := Join(message, js), FragmentAt(message, OFFSET_STEP * n, js[0]);
    SentAt(message, n, js[0], r);
    FragmentShape(message, OFFSET_STEP * n, js[0]);
    IsSent(message, OFFSET_STEP * n, js[0]);
    if |js| == 1 {
      OneTrail(message, n, r, js[0]);
      assert js == [js[0]];
    } else {
      TrailTail(message, n, r, js);
      var rest := Join(message, js[1..]);
      assert m[|f.payload|..] == rest;
      TrailAssembles(message, n, r + 1, js[1..]);
      assert OFFSET_STEP * r + |f.payload| / 8 == OFFSET_STEP * (r + 1);
    }
    AssemblesBy(SentFragments(message, OFFSET_STEP * n), OFFSET_STEP * r, m, f);
  }

  /** m is made of a trail that starts at the start of a window. */
  predicate Joins(message: seq<Byte>, n: nat, js: seq<nat>, m: seq<Byte>) {
    Trail(message, n, 0, js) && m == Join(message, js)
  }

  /**
   * Exactly what a host can assemble from the packets of any message sent after any number n of fragments:
   * the chunks of the trails of fragments that follow one another from the start of a window, as long as the
   * result is no longer than a datagram may be.
   */
  lemma HostAcceptsExact(message: seq<Byte>, n: nat, arrived: seq<seq<Byte>>, m: seq<Byte>)
    requires message != []
    requires forall p :: p in arrived <==> p in Fragments(message, OFFSET_STEP * n)
    ensures Assembles(ReadAll(arrived), 0, m) <==>
            Fits(0, m) && exists js :: Joins(message, n, js, m)
  {
    hide Assembles, ReadAll, SentFragments, Trail, Fragments, Fits, Join;
    ReadAllIsSent(message, OFFSET_STEP * n, arrived);
    if Assembles(ReadAll(arrived), 0, m) {
      var js := AssembledTrail(message, n, 0, m);
      assert Joins(message, n, js, m);
    }
    if Fits(0, m) {
      forall js | Joins(message, n, js, m) ensures Assembles(ReadAll(arrived), 0, m) {
        TrailAssembles(message, n, 0, js);
      }
    }
  }

  // ---------------------------------------------------------------- messages of at most 8192 fragments

  /** m is the tail of the message from its i-th fragment, and that fragment is the first of a double window. */
  predicate AcceptedTail(message: seq<Byte>, n: nat, i: nat, m: seq<Byte>) {
    i < Count(message) && (n + i) % 0x4000 == 0 && m == Rest(message, i) && Fits(0, m)
  }

  lemma {:induction false} JoinLength(message: seq<Byte>, n: nat, r: nat, js: seq<nat>)
    requires Trail(message, n, r, js)
    ensures |Join(message, js)| >= FRAGMENT_SIZE * (|js| - 1)
    decreases |js|
  {
    if |js| > 1 {
      hide Count, Chunk;
      TrailTail(message, n, r, js);
      JoinLength(message, n, r + 1, js[1..]);
      ChunkLength(message, js[0]);
    }
  }

  lemma ChunkLength(message: seq<Byte>, j: nat)
    requires j + 1 < Count(message)
    ensures |Chunk(message, j)| == FRAGMENT_SIZE
  {
  }

  function Following(message: seq<Byte>, i: nat): (js: seq<nat>)
    requires i < Count(message)
    ensures |js| == Count(message) - i && Numbers(message, js)
  {
    seq(Count(message) - i, k requires 0 <= k < Count(message) - i => i + k)
  }

  lemma {:induction false} JoinFollowing(message: seq<Byte>, i: nat)
    requires i < Count(message)
    ensures Join(message, Following(message, i)) == Rest(message, i)
    decreases Count(message) - i
  {
    hide Count, Chunk, Rest;
    var js := Following(message, i);
    RestSplits(message, i);
    if i + 1 < Count(message) {
      JoinFollowing(message, i + 1);
      assert js[1..] == Following(message, i + 1);
    } else {
      assert js[1..] == [];
    }
  }

  /** In a short message a trail cannot jump. */
  lemma TrailFollows(message: seq<Byte>, n: nat, js: seq<nat>)
    requires Trail(message, n, 0, js) && Count(message) <= 0x2000 && |js| <= 8
    ensures 0 < |js| <= Count(message) && js == Following(message, Count(message) - |js|)
    ensures (n + Count(message) - |js|) % 0x4000 == 0
  {
    hide Count;
    var last, r := js[|js| - 1], |js| - 1;
    TurnBack(n + last, r);
    forall k | 0 <= k < |js| ensures js[k] == last - r + k {
      if k < r {
        SameTurn(n + last, n + js[k], r, k);
      }
    }
    assert js[0] == last - r;
  }

  lemma TurnBack(x: nat, r: nat)
    requires x % 0x4000 == r
    ensures (x - r) % 0x4000 == 0
  {
    Quotient(x - r, 0x4000, x / 0x4000, 0);
  }

  lemma SameTurn(x: nat, y: nat, r: nat, k: nat)
    requires x % 0x4000 == r && y % 0x2000 == k && k <= r < 0x2000 && y < x < y + 0x2000
    ensures x - y == r - k
  {
    var a, b := x / 0x4000, y / 0x2000;
    assert x == 0x2000 * (2 * a) + r && y == 0x2000 * b + k;
  }

  lemma FollowingIsTrail(message: seq<Byte>, n: nat, i: nat)
    requires i < Count(message) && (n + i) % 0x4000 == 0 && Count(message) - i <= 8
    ensures Trail(message, n, 0, Following(message, i))
  {
    hide Count;
    var js := Following(message, i);
    forall k | 0 <= k < |js| ensures (n + js[k]) % 0x4000 == k && (n + js[k]) % 0x2000 == k {
      Turn(n + i, k);
    }
  }

  lemma Turn(x: nat, k: nat)
    requires x % 0x4000 == 0 && k < 0x2000
    ensures (x + k) % 0x4000 == k && (x + k) % 0x2000 == k
  {
    var q := x / 0x4000;
    Quotient(x + k, 0x4000, q, k);
    Quotient(x + k, 0x2000, 2 * q, k);
  }

  /**
   * A host that gets all packets of a message of at most 8192 fragments, sent after n fragments, accepts
   * exactly the tails of the message that start where n + i is a multiple of 16384 and are short enough: the
   * message itself, a part of it that was never sent as a datagram, or nothing.
   */
  lemma HostAcceptsTails(message: seq<Byte>, n: nat, arrived: seq<seq<Byte>>, m: seq<Byte>)
    requires message != [] && Count(message) <= 0x2000
    requires forall p :: p in arrived <==> p in Fragments(message, OFFSET_STEP * n)
    ensures Assembles(ReadAll(arrived), 0, m) <==> exists i :: AcceptedTail(message, n, i, m)
    ensures Reassemble(arrived) == Some(m) <==> exists i :: AcceptedTail(message, n, i, m)
  {
    hide Assembles, ReadAll, Trail, Fragments, Join, Count, Rest, Reassemble, SentFragments;
    HostAcceptsExact(message, n, arrived, m);
    ReadAllIsSent(message, OFFSET_STEP * n, arrived);
    NoClashWhenShort(message, n);
    ReassembleFinds(arrived, m);
    if Fits(0, m) {
      forall js | Joins(message, n, js, m) ensures exists i :: AcceptedTail(message, n, i, m) {
        JoinLength(message, n, 0, js);
        TrailFollows(message, n, js);
        var i := Count(message) - |js|;
        JoinFollowing(message, i);
        assert AcceptedTail(message, n, i, m);
      }
    }
    forall i | AcceptedTail(message, n, i, m) ensures Assembles(ReadAll(arrived), 0, m) {
      TailLength(message, i);
      FollowingIsTrail(message, n, i);
      JoinFollowing(message, i);
      assert Joins(message, n, Following(message, i), m);
    }
  }

  lemma TailLength(message: seq<Byte>, i: nat)
    requires i < Count(message) && Fits(0, Rest(message, i))
    ensures Count(message) - i <= 8
  {
  }

  lemma NoClashWhenShort(message: seq<Byte>, n: nat)
    requires Count(message) <= 0x2000
    ensures NoClash(SentFragments(message, OFFSET_STEP * n))
  {
    hide FragmentAt, Count;
    var base := OFFSET_STEP * n;
    var sent := SentFragments(message, base);
    forall f, g | f in sent && g in sent && f.offset == g.offset ensures f == g {
      var i :| 0 <= i < Count(message) && f == FragmentAt(message, base, i);
      var j :| 0 <= j < Count(message) && g == FragmentAt(message, base, j);
      if i < j {
        OffsetsDiffer(message, n, i, j);
      } else if j < i {
        OffsetsDiffer(message, n, j, i);
      }
    }
  }

  lemma OffsetsDiffer(message: seq<Byte>, n: nat, i: nat, j: nat)
    requires i < j < Count(message) <= 0x2000
    ensures FragmentAt(message, OFFSET_STEP * n, i).offset != FragmentAt(message, OFFSET_STEP * n, j).offset
  {
    hide Count, Chunk;
    var x, y := OFFSET_STEP * n + OFFSET_STEP * i, OFFSET_STEP * n + OFFSET_STEP * j;
    if OffsetBits(x) == OffsetBits(y) {
      SameBits(x, y);
      ResidueAt(j - i, 0, 0x2000, 472);
    }
  }

  lemma SameBits(x: nat, y: nat)
    requires x <= y && OffsetBits(x) == OffsetBits(y)
    ensures (y - x) % 0x2000 == 0
  {
    Quotient(y - x, 0x2000, y / 0x2000 - x / 0x2000, 0);
  }
}
