/**
 What `vsnprintf` leaves in the buffer.  The output position is a 32-bit counter, so the characters of
 a long text come back to positions that earlier ones were written to.
 */
module PrintfBuffer {
  import opened Numbers
  import opened PrintfSpec

  /** The buffer after all characters of `t` went out, when only the first `max` positions are written. */
  function Filled(t: string, max: nat, before: string): (after: string)
    requires max <= |before|
    ensures |after| == |before|
  {
    if t == [] then before
    else
      var b, at := Filled(t[..|t| - 1], max, before), (|t| - 1) % UINT;
      if at < max then b[at := t[|t| - 1]] else b
  }

  /** And with the NUL: where the counter stands, or in the last position. */
  function Terminated(t: string, max: nat, before: string): (after: string)
    requires max <= |before|
    ensures |after| == |before|
  {
    var filled := Filled(t, max, before);
    if max == 0 then filled else filled[Min(|t| % UINT, max - 1) := '\0']
  }

  /** The text is stored as promised: as much of it as fits before the NUL, and nothing behind the limit changes. */
  predicate Stored(t: string, max: nat, before: string, after: string)
    requires max <= |before| == |after|
  {
    && after[max..] == before[max..]
    && (max > 0 ==> var k := Min(|t|, max - 1); after[..k + 1] == t[..k] + ['\0'])
  }

  lemma FilledOneMore(t: string, c: char, max: nat, before: string)
    requires max <= |before|
    ensures var b, at := Filled(t, max, before), |t| % UINT;
            Filled(t + [c], max, before) == if at < max then b[at := c] else b
  {
    assert (t + [c])[..|t|] == t;
  }

  // ---------------------------------------------------------------------------------------------
  // Which character a position holds
  // ---------------------------------------------------------------------------------------------

  /** Of the first `len` characters, the one at `j` is the last that goes to position `i`. */
  predicate LastWrite(len: nat, i: nat, j: nat) {
    j < len && j % UINT == i && forall k :: j < k < len ==> k % UINT != i
  }

  /** A position holds the last character that was sent while the counter stood there. */
  lemma {:induction false} FilledAt(t: string, max: nat, before: string, i: nat, j: nat)
    requires max <= |before| && i < max && LastWrite(|t|, i, j)
    ensures Filled(t, max, before)[i] == t[j]
    decreases |t|
  {
    if j < |t| - 1 {
      assert (|t| - 1) % UINT != i;
      FilledAt(t[..|t| - 1], max, before, i, j);
    }
  }

  /** A position that the counter never came to, or behind the limit, is as it was. */
  lemma {:induction false} FilledNot(t: string, max: nat, before: string, i: nat)
    requires max <= |before| && i < |before| && (i >= max || forall k :: 0 <= k < |t| ==> k % UINT != i)
    ensures Filled(t, max, before)[i] == before[i]
    decreases |t|
  {
    if t != [] {
      FilledNot(t[..|t| - 1], max, before, i);
      assert (|t| - 1) % UINT != i || i >= max;
    }
  }

  lemma BehindLimit(t: string, max: nat, before: string)
    requires max <= |before|
    ensures Terminated(t, max, before)[max..] == before[max..]
  {
    var after := Terminated(t, max, before);
    forall i | max <= i < |before| ensures after[i] == before[i] {
      FilledNot(t, max, before, i);
    }
  }

  // ---------------------------------------------------------------------------------------------
  // When the text is stored as promised
  // ---------------------------------------------------------------------------------------------

  /** A text shorter than 2^32 always is. */
  lemma ShortIsStored(t: string, max: nat, before: string)
    requires max <= |before| && max <= INT_MAX && |t| < UINT
    ensures Stored(t, max, before, Terminated(t, max, before))
  {
    BehindLimit(t, max, before);
    SmallMod(|t|, UINT);
    if max > 0 {
      var k, after := Min(|t|, max - 1), Terminated(t, max, before);
      forall i | 0 <= i < k ensures after[i] == t[i] {
        ShortLast(|t|, i);
        FilledAt(t, max, before, i, i);
      }
      assert after[k] == '\0';
    }
  }

  lemma ShortLast(len: nat, i: nat)
    requires i < len < UINT
    ensures LastWrite(len, i, i)
  {
    forall k | i < k < len ensures k % UINT != i { SmallMod(k, UINT); }
  }

  /** In a buffer of one character any text is: all there is room for is the NUL. */
  lemma OnlyNul(t: string, max: nat, before: string)
    requires max <= 1 && max <= |before|
    ensures Stored(t, max, before, Terminated(t, max, before))
  {
    BehindLimit(t, max, before);
  }

  /** A text of 2^32 characters loses its first one to the NUL. */
  lemma FirstIsLost(t: string, max: nat, before: string)
    requires 2 <= max <= |before| && max <= INT_MAX && |t| == UINT
    ensures Terminated(t, max, before)[0] == '\0'
    ensures t[0] != '\0' ==> !Stored(t, max, before, Terminated(t, max, before))
  {
    var after := Terminated(t, max, before);
    assert UINT % UINT == 0;
    if Stored(t, max, before, after) { StoredAt(t, max, before, after, 0); }
  }

  lemma StoredAt(t: string, max: nat, before: string, after: string, i: nat)
    requires 0 < max <= |before| == |after| && i < Min(|t|, max - 1) && Stored(t, max, before, after)
    ensures after[i] == t[i]
  {
    assert after[..Min(|t|, max - 1) + 1][i] == t[i];
  }

  /** The round the counter is in after `len` characters. */
  lemma Rounds(len: nat)
    requires len >= UINT
    ensures var r := len % UINT; r < UINT <= len && (r > 0 ==> LastWrite(len, 0, len - r))
  {
    var q, r := len / UINT, len % UINT;
    var base := len - r;
    Division(len, UINT);
    ModUnique(base, UINT, q, 0);
    forall k | base < k < len ensures k % UINT != 0 {
      ModUnique(k, UINT, q, k - base);
    }
  }

  /** An `a` and then only `b`. */
  function OneA(len: nat): (t: string)
    requires len > 0
    ensures |t| == len && t[0] == 'a' && forall k :: 0 < k < len ==> t[k] == 'b'
  {
    ['a'] + Repeat('b', len - 1)
  }

  /** A longer text is not, in general: what stands at its beginning is overwritten. */
  lemma LongIsLost(len: nat, max: nat, before: string)
    requires len >= UINT && 2 <= max <= INT_MAX && max <= |before|
    ensures !Stored(OneA(len), max, before, Terminated(OneA(len), max, before))
  {
    var t := OneA(len);
    var after := Terminated(t, max, before);
    var r := len % UINT;
    Rounds(len);
    if r < max - 1 {
      assert after[r] == '\0' && t[r] != '\0';
      if Stored(t, max, before, after) { StoredAt(t, max, before, after, r); }
    } else {
      FilledAt(t, max, before, 0, len - r);
      assert after[0] == 'b';
      if Stored(t, max, before, after) { StoredAt(t, max, before, after, 0); }
    }
  }

  /** All texts of the length are. */
  ghost predicate AlwaysStored(len: nat, max: nat) {
    forall t: string, before: string :: |t| == len && max <= |before| ==> Stored(t, max, before, Terminated(t, max, before))
  }

  /** All texts of a length are stored as promised exactly when the length is below 2^32 or nothing but the NUL fits. */
  lemma StoredIff(len: nat, max: nat)
    requires max <= INT_MAX
    ensures AlwaysStored(len, max) <==> len < UINT || max <= 1
  {
    forall t: string, before: string | |t| == len && max <= |before| && (len < UINT || max <= 1)
      ensures Stored(t, max, before, Terminated(t, max, before))
    {
      if len < UINT { ShortIsStored(t, max, before); } else { OnlyNul(t, max, before); }
    }
    if len >= UINT && max > 1 {
      var before := Repeat(' ', max);
      LongIsLost(len, max, before);
      assert |OneA(len)| == len && max <= |before|;
    }
  }
}
