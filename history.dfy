/** The bounded undo history of the editor (static/app.js:205): a push
    that drops the oldest snapshot once more than 100 are kept. */
module History {

  const Capacity: nat := 100

  function Min(a: int, b: int): int
  {
    if a <= b then a else b
  }

  /** `undoStack.push(s); if (undoStack.length > 100) undoStack.shift()`:
      the newest snapshot is on top, and below it the most recent older
      ones, as many as fit. */
  function BoundedPush<T>(stack: seq<T>, x: T): (r: seq<T>)
    ensures |stack| <= Capacity ==> |r| == Min(|stack| + 1, Capacity)
    ensures 0 < |r| <= |stack| + 1 && r[|r| - 1] == x
  {
    var pushed := stack + [x];
    if |pushed| > Capacity then pushed[1..] else pushed
  }

  /** What stays below the new snapshot: the most recent older ones, the
      oldest dropped first. */
  lemma BoundedPushDropsOldest<T>(stack: seq<T>, x: T)
    ensures var r := BoundedPush(stack, x);
            r == (stack + [x])[|stack| + 1 - |r|..]
  {
  }

  /** Pushing a run of snapshots one after another. */
  function PushAll<T>(stack: seq<T>, xs: seq<T>): seq<T>
    decreases |xs|
  {
    if xs == [] then stack else PushAll(BoundedPush(stack, xs[0]), xs[1..])
  }

  /** The most recent snapshots of a history, oldest first, as many as fit. */
  function MostRecent<T>(s: seq<T>): seq<T>
  {
    s[|s| - Min(|s|, Capacity)..]
  }

  /** After any run of pushes onto a stack within capacity, the stack holds
      exactly the most recent snapshots, oldest first, as many as fit. */
  lemma {:induction false} PushAllKeepsMostRecent<T>(stack: seq<T>, xs: seq<T>)
    requires |stack| <= Capacity
    ensures PushAll(stack, xs) == MostRecent(stack + xs)
    decreases |xs|
  {
    if xs == [] {
      assert stack + xs == stack;
    } else {
      var next := BoundedPush(stack, xs[0]);
      PushAllKeepsMostRecent(next, xs[1..]);
      var all := stack + xs;
      var drop := |stack| + 1 - |next|;
      assert next + xs[1..] == all[drop..] by {
        BoundedPushDropsOldest(stack, xs[0]);
        assert all == (stack + [xs[0]]) + xs[1..];
        SuffixThenAppend(stack + [xs[0]], xs[1..], drop);
      }
      MostRecentOfSuffix(all, drop);
    }
  }

  /** Dropping old snapshots that would not fit anyway changes nothing. */
  lemma MostRecentOfSuffix<T>(s: seq<T>, drop: nat)
    requires drop <= |s| - Min(|s|, Capacity)
    ensures MostRecent(s[drop..]) == MostRecent(s)
  {
    var keep := |s| - drop - Min(|s| - drop, Capacity);
    assert drop + keep == |s| - Min(|s|, Capacity);
    SuffixOfSuffix(s, drop, keep);
  }

  lemma SuffixThenAppend<T>(a: seq<T>, b: seq<T>, i: nat)
    requires i <= |a|
    ensures a[i..] + b == (a + b)[i..]
  {
  }

  lemma SuffixOfSuffix<T>(s: seq<T>, i: nat, j: nat)
    requires i + j <= |s|
    ensures s[i..][j..] == s[i + j..]
  {
  }

  /** 150 pushes onto an empty stack leave the 100 most recent. */
  lemma {:induction false} HundredFiftyPushes<T>(xs: seq<T>)
    requires |xs| == 150
    ensures PushAll([], xs) == xs[50..]
  {
    PushAllKeepsMostRecent([], xs);
    assert [] + xs == xs;
  }
}
