/** Saved states in the key-value store: one key per save, and the search for the latest. */
module StateStore {
  import opened Wrappers
  import opened Decimal

  const KEY_PREFIX: string := "f1_global_state:"

  /** The key SaveState writes at a Unix time. */
  function Key(timestamp: nat): string {
    KEY_PREFIX + Itoa(timestamp)
  }

  /** A key tells the time of its save. */
  lemma KeyTellsTime(timestamp: nat)
    requires timestamp <= MAX_INT64
    ensures |Key(timestamp)| > 16 && Key(timestamp)[..16] == "f1_global_state:"
    ensures Atoi(Key(timestamp)[16..]) == Some(timestamp)
  {
    hide Atoi, PrintNat;
    AtoiReadsPrinted(timestamp, 0);
    assert Key(timestamp)[16..] == Itoa(timestamp);
  }

  // ---- the string order ----

  lemma {:induction false} LessIsTransitive(a: string, b: string, c: string)
    requires Less(a, b) && Less(b, c)
    ensures Less(a, c)
  {
    if a != [] && a[0] == b[0] && b[0] == c[0] {
      LessIsTransitive(a[1..], b[1..], c[1..]);
    }
  }

  lemma {:induction false} LessIsTotal(a: string, b: string)
    ensures a == b || Less(a, b) || Less(b, a)
    ensures !(Less(a, b) && Less(b, a)) && !Less(a, a)
  {
    if a != [] {
      LessIsTotal(a[1..], a[1..]);
      if b != [] && a[0] == b[0] {
        LessIsTotal(a[1..], b[1..]);
        assert a == [a[0]] + a[1..] && b == [b[0]] + b[1..];
      }
    }
  }

  /** LoadLatestState's loop: the largest key in the string order. */
  method LatestKey(keys: seq<string>) returns (latest: Option<string>)
    ensures latest.None? <==> keys == []
    ensures latest.Some? ==> latest.value in keys && forall k :: k in keys ==> !Less(latest.value, k)
  {
    hide Less;
    if |keys| == 0 {
      return None;
    }
    var latestKey := keys[0];
    for i := 0 to |keys|
      invariant latestKey in keys
      invariant forall j :: 0 <= j < i ==> !Less(latestKey, keys[j])
    {
      LessIsTotal(latestKey, keys[i]);
      if Less(latestKey, keys[i]) {
        forall j | 0 <= j < i
          ensures !Less(keys[i], keys[j])
        {
          if Less(keys[i], keys[j]) { LessIsTransitive(latestKey, keys[i], keys[j]); }
        }
        LessIsTotal(keys[i], keys[i]);
        latestKey := keys[i];
      }
    }
    return Some(latestKey);
  }

  // ---- keys and times ----

  lemma {:induction false} LessThanLonger(a: string, b: string, tail: string)
    requires |a| == |b| && tail != []
    ensures Less(a, b + tail) <==> a == b || Less(a, b)
  {
    if a == [] {
      assert b + tail == tail;
    } else {
      assert (b + tail)[1..] == b[1..] + tail;
      LessThanLonger(a[1..], b[1..], tail);
      assert a == [a[0]] + a[1..] && b == [b[0]] + b[1..];
    }
  }

  lemma ScaledBelow(a: nat, front: nat, w: nat, tail: nat)
    requires tail < w
    ensures a * w <= front * w + tail <==> a <= front
  {
    if a <= front {
      assert front * w == a * w + (front - a) * w;
    } else {
      LeadingDigitDecides(front, a, w);
    }
  }

  /** Numerals of different lengths compare as if the shorter one were filled up with zeros, and the shorter one is
      first when that makes them equal. */
  lemma LessAcrossLengths(a: string, b: string)
    requires AllDigits(a) && AllDigits(b) && |a| < |b|
    ensures Less(a, b) <==> DigitsValue(a) * Pow10(|b| - |a|) <= DigitsValue(b)
  {
    hide Less, DigitsValue, Pow10;
    var front, tail := b[..|a|], b[|a|..];
    assert b == front + tail;
    LessThanLonger(a, front, tail);
    LessIsNumeric(a, front);
    DigitsValueJoined(front, tail);
    DigitsValueBound(tail);
    ScaledBelow(DigitsValue(a), DigitsValue(front), Pow10(|tail|), DigitsValue(tail));
    if DigitsValue(a) == DigitsValue(front) {
      NumeralsOfOneLengthAreUnique(a, front);
    }
  }

  lemma {:induction false} LongerIsLarger(a: nat, b: nat)
    requires a <= b
    ensures |PrintNat(a)| <= |PrintNat(b)|
  {
    if b >= 10 && a >= 10 { LongerIsLarger(a / 10, b / 10); }
  }

  /** An earlier key is before a later one exactly when the earlier time, filled up to as many digits, is not the larger
      number; with equally many digits this always holds. */
  lemma KeyOrderIff(a: nat, b: nat)
    requires a < b
    ensures |PrintNat(a)| <= |PrintNat(b)|
    ensures Less(Key(a), Key(b)) <==> a * Pow10(|PrintNat(b)| - |PrintNat(a)|) <= b
  {
    hide Less, Pow10, PrintNat;
    LessBehindPrefix(KEY_PREFIX, PrintNat(a), PrintNat(b));
    LongerIsLarger(a, b);
    if |PrintNat(a)| == |PrintNat(b)| {
      LessIsNumeric(PrintNat(a), PrintNat(b));
      assert Pow10(0) == 1 by { OneToTheZero(); }
    } else {
      LessAcrossLengths(PrintNat(a), PrintNat(b));
    }
  }

  lemma OneToTheZero()
    ensures Pow10(0) == 1
  {
  }

  /** After the tenth digit runs out the newest state is not the latest key. */
  lemma ElevenDigitsComeFirst()
    ensures Less(Key(10_000_000_000), Key(9_999_999_999))
  {
    hide PrintNat, Less;
    TenPowers();
    NumeralLength(9_999_999_999, 10);
    NumeralLength(10_000_000_000, 11);
    KeyOrderIff(9_999_999_999, 10_000_000_000);
    assert Pow10(1) == 10;
    LessIsTotal(Key(9_999_999_999), Key(10_000_000_000));
    KeysDiffer(9_999_999_999, 10_000_000_000);
  }

  lemma TenPowers()
    ensures Pow10(9) == 1_000_000_000 && Pow10(10) == 10_000_000_000 && Pow10(11) == 100_000_000_000
  {
    assert Pow10(3) == 1000;
    assert Pow10(6) == 1_000_000;
    assert Pow10(9) == 1_000_000_000;
  }

  lemma KeysDiffer(a: nat, b: nat)
    requires a != b
    ensures Key(a) != Key(b)
  {
    hide PrintNat;
    assert Key(a)[|KEY_PREFIX|..] == PrintNat(a) && Key(b)[|KEY_PREFIX|..] == PrintNat(b);
    assert DigitsValue(PrintNat(a)) == a && DigitsValue(PrintNat(b)) == b;
  }

  function Keys(times: seq<nat>): (ks: seq<string>)
    ensures |ks| == |times|
  {
    seq(|times|, i requires 0 <= i < |times| => Key(times[i]))
  }

  /** The earlier time, filled up with zeros to as many digits as the later one has, is not the larger number. */
  predicate KeepsPlace(earlier: nat, later: nat) {
    |PrintNat(earlier)| <= |PrintNat(later)| && earlier * Pow10(|PrintNat(later)| - |PrintNat(earlier)|) <= later
  }

  /** The largest key is that of the newest save exactly when every earlier time keeps its place before the newest. */
  lemma LargestKeyIsNewestIff(times: seq<nat>, latest: string, newest: nat)
    requires latest in Keys(times) && forall k :: k in Keys(times) ==> !Less(latest, k)
    requires newest in times && forall t :: t in times ==> t <= newest
    ensures latest == Key(newest) <==> forall t :: t in times && t < newest ==> KeepsPlace(t, newest)
  {
    hide Less, Key, PrintNat, Pow10;
    var i :| 0 <= i < |times| && Keys(times)[i] == latest;
    var n :| 0 <= n < |times| && times[n] == newest;
    assert Keys(times)[n] in Keys(times) && times[i] in times;
    if latest == Key(newest) {
      forall t | t in times && t < newest
        ensures KeepsPlace(t, newest)
      {
        var j :| 0 <= j < |times| && times[j] == t;
        assert Keys(times)[j] in Keys(times);
        KeyOrderIff(t, newest);
        KeysDiffer(t, newest);
        LessIsTotal(Key(t), Key(newest));
      }
    } else {
      KeyOrderIff(times[i], newest);
      LessIsTotal(latest, Key(newest));
    }
  }

  /** Ten-digit times: every timestamp from September 2001 to November 2286. */
  predicate TenDigits(t: nat) {
    1_000_000_000 <= t < 10_000_000_000
  }

  /** Ten-digit times keep their places, so among them the largest key is that of the newest. */
  lemma LargestKeyIsNewest(times: seq<nat>, latest: string, newest: nat)
    requires forall t :: t in times ==> TenDigits(t)
    requires latest in Keys(times) && forall k :: k in Keys(times) ==> !Less(latest, k)
    requires newest in times && forall t :: t in times ==> t <= newest
    ensures latest == Key(newest)
  {
    hide Less, Key, PrintNat;
    LargestKeyIsNewestIff(times, latest, newest);
    TenPowers();
    OneToTheZero();
    forall t | t in times && t < newest
      ensures KeepsPlace(t, newest)
    {
      NumeralLength(t, 10);
      NumeralLength(newest, 10);
    }
  }
}
