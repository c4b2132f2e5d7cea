/** A reward index: a running sum of rewards for each token staked, scaled up, each addition rounded down.
    Both staking contracts pay by one, each with a scale of its own. */
module RewardIndex {
  import opened Products

  /** One funding's exact share of a staker, had everybody been paid on the spot. */
  ghost function ExactShare(stake: int, amount: int, total: int): real {
    if total > 0 then (stake * amount) as real / total as real else 0.0
  }

  /** `credited`, scaled, is the exact amount `owed` up to what exposure and roundings take away: a unit of the
      index for each token exposed, and less than a reward unit for each rounding. */
  ghost predicate Tracks(scale: int, credited: int, owed: real, exposure: int, roundings: int) {
    && owed * scale as real - exposure as real - ((scale - 1) * roundings) as real <= credited as real
    && credited as real <= owed * scale as real
  }

  lemma TracksAdds(scale: int, c: int, o: real, e: int, a: int, c': int, o': real, e': int, a': int)
    requires Tracks(scale, c, o, e, a) && Tracks(scale, c', o', e', a')
    ensures Tracks(scale, c + c', o + o', e + e', a + a')
  {
    assert (o + o') * scale as real == o * scale as real + o' * scale as real;
    assert (scale - 1) * (a + a') == (scale - 1) * a + (scale - 1) * a';
  }

  /** What the index credits a staker falls short of the exact share by at most the stake over the scale. */
  lemma FloorOfShare(scale: int, stake: int, amount: int, total: int)
    requires scale > 0 && stake >= 0 && total > 0
    ensures Tracks(scale, stake * (amount * scale / total), ExactShare(stake, amount, total), stake, 0)
  {
    FloorOfPart(stake, amount * scale, total);
    assert stake * (amount * scale) == stake * amount * scale;
    ShareInReals(scale, stake * (amount * scale / total), stake, stake * amount, total);
  }

  lemma FloorOfPart(stake: int, scaled: int, total: int)
    requires stake >= 0 && total > 0
    ensures stake * scaled - stake * total <= stake * (scaled / total) * total <= stake * scaled
  {
    var floor := scaled / total;
    FloorTimesDivisor(scaled, total);
    Between(stake, scaled - total, floor * total, scaled);
    assert stake * (floor * total) == stake * floor * total;
    assert stake * (scaled - total) == stake * scaled - stake * total;
  }

  lemma ShareInReals(scale: int, credited: int, stake: int, part: int, total: int)
    requires total > 0
    requires part * scale - stake * total <= credited * total <= part * scale
    ensures Tracks(scale, credited, part as real / total as real, stake, 0)
  {
    var t, share := total as real, part as real / total as real;
    assert share * scale as real * t == (part * scale) as real by {
      assert share * t == part as real;
      assert share * scale as real * t == share * t * scale as real;
      assert (part * scale) as real == part as real * scale as real;
    }
    assert (credited * total) as real == credited as real * t;
    assert (stake * total) as real == stake as real * t;
    CancelFactor(credited as real, share * scale as real, t);
    CancelFactor(share * scale as real - stake as real, credited as real, t);
  }

  /** Whole units `paid` for the exact amount `owed`: never more, and short by what exposure and roundings take. */
  ghost predicate PaysFloor(scale: int, paid: int, owed: real, exposure: int, roundings: int) {
    && paid as real <= owed
    && scale as real * (owed - paid as real) <= ((scale - 1) * roundings + exposure) as real
  }

  /** Paying out scaled credit in whole units takes one more rounding. */
  lemma TracksPays(scale: int, credit: int, claimed: int, quote: int, owed: real, exposure: int, roundings: int)
    requires scale > 0 && Tracks(scale, credit + scale * claimed, owed, exposure, roundings)
    requires credit - (scale - 1) <= scale * quote <= credit
    ensures PaysFloor(scale, claimed + quote, owed, exposure, roundings + 1)
  {
    var paid := claimed + quote;
    assert scale * paid == scale * claimed + scale * quote;
    assert (scale * paid) as real == paid as real * scale as real;
    CancelFactor(paid as real, owed, scale as real);
    assert (scale - 1) * (roundings + 1) == (scale - 1) * roundings + (scale - 1);
  }

  lemma Between(k: int, low: int, middle: int, high: int)
    requires k >= 0 && low <= middle <= high
    ensures k * low <= k * middle <= k * high
  {
  }

  lemma CancelFactor(x: real, y: real, t: real)
    requires t > 0.0 && x * t <= y * t
    ensures x <= y
  {
  }
}
