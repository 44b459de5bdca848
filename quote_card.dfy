/** The motivational-quote carousel: one `index` into a fixed list of quotes,
    moved by a timer, by swiping and by the indicator dots. */
module QuoteCard {
  import opened TaskModel
  import opened Arithmetic

  datatype Quote = Quote(id: int, text: string)

  const DefaultQuotes: seq<Quote> := [
    Quote(1, "Believe in yourself, and you're halfway there."),
    Quote(2, "Small steps every day lead to big changes."),
    Quote(3, "Dream big. Start small. Act now."),
    Quote(4, "Discipline is the bridge between goals and accomplishment."),
    Quote(5, "Your only limit is your mind.")
  ]

  /** A drag further than this many pixels turns the card. */
  const DragThreshold := 100

  /** The timer step `(prev + 1) % quotes.length`. The dividend is never
      negative, so JavaScript's truncating `%` and Dafny's `%` agree. */
  function Advance(index: int, len: int): (r: int)
    requires 0 <= index < len
    ensures 0 <= r < len
    ensures index == len - 1 ==> r == 0
    ensures index < len - 1 ==> r == index + 1
  {
    if index == len - 1 then
      ModUnique(index + 1, len, 1, 0);
      (index + 1) % len
    else
      ModUnique(index + 1, len, 0, index + 1);
      (index + 1) % len
  }

  /** `swipeTo(dir)`: `(prev + dir + quotes.length) % quotes.length`; adding
      the length keeps the dividend non-negative for `dir == -1`. */
  function Swipe(index: int, dir: int, len: int): (r: int)
    requires 0 <= index < len
    requires dir == -1 || dir == 1
    ensures 0 <= r < len
    ensures dir == 1 ==> r == Advance(index, len)
    ensures dir == -1 && index == 0 ==> r == len - 1
    ensures dir == -1 && index > 0 ==> r == index - 1
  {
    var n := index + dir + len;
    if n >= len + len then
      assert dir == 1 && index == len - 1;
      ModUnique(n, len, 2, 0);
      n % len
    else if n >= len then
      ModUnique(n, len, 1, n - len);
      n % len
    else
      ModUnique(n, len, 0, n);
      n % len
  }

  /** Swiping forward then back, or back then forward, returns to the same quote. */
  lemma SwipeRoundTrip(index: int, len: int)
    requires 0 <= index < len
    ensures Swipe(Swipe(index, 1, len), -1, len) == index
    ensures Swipe(Swipe(index, -1, len), 1, len) == index
  {
  }

  /** The quote reached by `n` forward swipes from `index`. */
  function SwipeForwardTimes(index: int, len: int, n: nat): (r: int)
    requires 0 <= index < len
    ensures 0 <= r < len
  {
    if n == 0 then index else Swipe(SwipeForwardTimes(index, len, n - 1), 1, len)
  }

  lemma {:induction false} SwipeForwardIsAddition(index: int, len: int, n: nat)
    requires 0 <= index < len
    ensures SwipeForwardTimes(index, len, n) == (index + n) % len
  {
    if n > 0 {
      SwipeForwardIsAddition(index, len, n - 1);
      var q := SwipeForwardTimes(index, len, n - 1);
      assert SwipeForwardTimes(index, len, n) == Advance(q, len);
      ModSuccessor(index + n - 1, len);
    }
  }

  /** Stepping a remainder is taking the remainder of the successor. */
  lemma ModSuccessor(m: nat, len: int)
    requires len > 0
    ensures (m + 1) % len == Advance(m % len, len)
  {
    var k, q := m / len, m % len;
    assert m == len * k + q;
    if q == len - 1 {
      assert m + 1 == len * (k + 1) + 0;
      ModUnique(m + 1, len, k + 1, 0);
    } else {
      ModUnique(m + 1, len, k, q + 1);
    }
  }

  lemma FullCycleReturns(index: int, len: int)
    requires 0 <= index < len
    ensures SwipeForwardTimes(index, len, len) == index
  {
    SwipeForwardIsAddition(index, len, len);
    ModUnique(index + len, len, 1, index);
  }

  /** The drag-end dispatch: a drag right of more than the threshold goes
      back one quote, a drag left of more than the threshold goes forward
      one, anything else leaves the card where it is (0). */
  function DragDirection(offsetX: int): (r: int)
    ensures r == -1 || r == 0 || r == 1
    ensures r == -1 <==> offsetX > DragThreshold
    ensures r == 1 <==> offsetX < -DragThreshold
  {
    if offsetX > DragThreshold then -1
    else if offsetX < -DragThreshold then 1
    else 0
  }

  /** The indicator row: dot `i` is highlighted exactly when `i == index`. */
  function Indicators(len: nat, index: int): (r: seq<bool>)
    ensures |r| == len
    ensures forall i :: 0 <= i < len ==> (r[i] <==> i == index)
  {
    seq(len, i => i == index)
  }

  function CountTrue(s: seq<bool>): nat
  {
    if s == [] then 0 else (if s[|s| - 1] then 1 else 0) + CountTrue(s[..|s| - 1])
  }

  lemma {:induction false} CountHighlighted(len: nat, index: int)
    ensures CountTrue(Indicators(len, index)) == if 0 <= index < len then 1 else 0
  {
    if len > 0 {
      var s := Indicators(len, index);
      assert s[..len - 1] == Indicators(len - 1, index);
      CountHighlighted(len - 1, index);
    }
  }

  /** Exactly one dot is highlighted while the index is in range. */
  lemma ExactlyOneIndicatorActive(len: nat, index: int)
    requires 0 <= index < len
    ensures CountTrue(Indicators(len, index)) == 1
  {
    CountHighlighted(len, index);
  }

  /** `quotes[index % quotes.length]`, with `None` for the empty list, where
      the component renders its loading text instead. */
  function CurrentQuote(quotes: seq<Quote>, index: int): (r: Option<Quote>)
    requires index >= 0
    ensures r.Some? <==> quotes != []
    ensures r.Some? ==> r.value in quotes
    ensures index < |quotes| ==> r == Some(quotes[index])
  {
    if quotes == [] then None else Some(quotes[index % |quotes|])
  }

  class QuotesCarousel {
    const quotes: seq<Quote>
    var index: int

    ghost predicate Valid()
      reads this
    {
      quotes != [] && 0 <= index < |quotes|
    }

    constructor()
      ensures quotes == DefaultQuotes && index == 0
      ensures Valid()
    {
      quotes := DefaultQuotes;
      index := 0;
    }

    /** One tick of the rotation timer. */
    method AutoAdvance()
      requires Valid()
      modifies this`index
      ensures Valid()
      ensures index == Advance(old(index), |quotes|)
    {
      index := (index + 1) % |quotes|;
    }

    method SwipeTo(dir: int)
      requires Valid()
      requires dir == -1 || dir == 1
      modifies this`index
      ensures Valid()
      ensures index == Swipe(old(index), dir, |quotes|)
    {
      index := (index + dir + |quotes|) % |quotes|;
    }

    /** `onDragEnd` with the horizontal drag offset. */
    method DragEnd(offsetX: int)
      requires Valid()
      modifies this`index
      ensures Valid()
      ensures offsetX > DragThreshold ==> index == Swipe(old(index), -1, |quotes|)
      ensures offsetX < -DragThreshold ==> index == Swipe(old(index), 1, |quotes|)
      ensures -DragThreshold <= offsetX <= DragThreshold ==> index == old(index)
    {
      var dir := DragDirection(offsetX);
      if dir != 0 {
        SwipeTo(dir);
      }
    }

    /** A click on dot `i`. */
    method SelectIndicator(i: int)
      requires Valid()
      requires 0 <= i < |quotes|
      modifies this`index
      ensures Valid()
      ensures index == i
    {
      index := i;
    }

    /** A key press on dot `i`: only Enter selects it. */
    method IndicatorKey(i: int, key: string)
      requires Valid()
      requires 0 <= i < |quotes|
      modifies this`index
      ensures Valid()
      ensures index == if key == "Enter" then i else old(index)
    {
      if key == "Enter" {
        index := i;
      }
    }
  }
}
