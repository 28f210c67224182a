// History over whole runs: what a guest's orders put there, and nothing else (vt/screen.cpp,
// vt/scrollback.cpp).

module ScreenHistory {
  import opened Cells
  import opened Width
  import opened ScreenRow
  import opened Scrollback
  import opened Screen
  import opened ScreenOrders
  import opened ScreenProofs

  /** The row a line feed sends away: the top one, if the cursor is at the bottom of a full main page. */
  function FeedOf(s: Scr): seq<Row>
    requires Valid(s)
  {
    if Feeds(s) && s.cy == s.bottom then [s.grid[0]] else []
  }

  /** A glyph may consume a pending wrap, and then not fit on the line it is on. */
  function PrintFeeds(s: Scr, ambiguous: bool, code: nat): seq<Row>
    requires Valid(s)
  {
    var w := CharWidth(ambiguous, Translate(code, s.charset));
    if w == 0 then []
    else
      UnwrapKeepsBounds(s);
      var t := Unwrap(s);
      (if s.wrap && s.autowrap then FeedOf(s) else [])
      + (if w == 2 && t.cx + 1 >= t.cols && t.autowrap then FeedOf(t) else [])
  }

  /** The rows an order sends to the history, oldest first. */
  function FedBy(s: Scr, ambiguous: bool, o: Order): seq<Row>
    requires Valid(s)
  {
    match o
    case OPrint(cp) => PrintFeeds(s, ambiguous, cp)
    case OLineFeed => FeedOf(s)
    case ONextLine => FeedOf(s)
    case _ => []
  }

  function Fed(s: Scr, ambiguous: bool, os: seq<Order>): seq<Row>
    requires Valid(s)
    decreases |os|
  {
    if os == [] then []
    else
      OrderKeepsBounds(s, ambiguous, os[0]);
      FedBy(s, ambiguous, os[0]) + Fed(Do(s, ambiguous, os[0]), ambiguous, os[1..])
  }

  function Grown(h: Option<History>, rows: seq<Row>): Option<History> {
    if h.Some? then Some(PushAll(h.value, rows)) else None
  }

  lemma {:induction false} PushAllConcat(h: History, a: seq<Row>, b: seq<Row>)
    ensures PushAll(h, a + b) == PushAll(PushAll(h, a), b)
    decreases |a|
  {
    hide Push;
    if a == [] {
      assert a + b == b;
    } else {
      assert (a + b)[1..] == a[1..] + b;
      PushAllConcat(Push(h, a[0]), a[1..], b);
    }
  }

  lemma GrownTwice(h: Option<History>, a: seq<Row>, b: seq<Row>)
    ensures Grown(h, a + b) == Grown(Grown(h, a), b)
  {
    hide PushAll;
    if h.Some? { PushAllConcat(h.value, a, b); }
  }

  lemma GrownByNothing(h: Option<History>)
    ensures Grown(h, []) == h
  {
  }

  lemma LineFeedFeeds(s: Scr)
    requires Valid(s)
    ensures LineFeed(s).history == Grown(s.history, FeedOf(s))
  {
    hide Push, ScrollSliceUp;
    var t := s.(wrap := false);
    if t.cy == t.bottom {
      var u := if Feeds(t) then t.(history := Some(Push(t.history.value, t.grid[t.top]))) else t;
      if Feeds(t) {
        PushKeepsSound(t.history.value, t.grid[t.top]);
        assert PushAll(t.history.value, [s.grid[0]]) == Push(t.history.value, s.grid[0]) by {
          assert [s.grid[0]][1..] == [];
        }
      }
      SliceUpGridOnly(u, u.top, u.bottom, 1);
    }
  }

  lemma FeedIgnoresCursor(s: Scr)
    requires Valid(s)
    ensures Valid(s.(wrap := false, cx := 0)) && FeedOf(s.(wrap := false, cx := 0)) == FeedOf(s)
    ensures Valid(s.(cx := 0)) && FeedOf(s.(cx := 0)) == FeedOf(s)
  {
  }

  lemma PutKeepsHistory(s: Scr, cp: nat, w: nat)
    requires Valid(s)
    ensures Put(s, cp, w).history == s.history
  {
    hide PutGlyph;
  }

  lemma UnwrapFeeds(s: Scr)
    requires Valid(s)
    ensures Unwrap(s).history == Grown(s.history, if s.wrap && s.autowrap then FeedOf(s) else [])
  {
    FeedIgnoresCursor(s);
    hide LineFeed, FeedOf, Valid, PushAll;
    GrownByNothing(s.history);
    if s.wrap && s.autowrap {
      LineFeedFeeds(s.(wrap := false, cx := 0));
    }
  }

  lemma PrintFeedsHistory(s: Scr, ambiguous: bool, code: nat)
    requires Valid(s)
    ensures Screen.Print(s, ambiguous, code).history == Grown(s.history, PrintFeeds(s, ambiguous, code))
  {
    var cp := Translate(code, s.charset);
    var w := CharWidth(ambiguous, cp);
    hide CharWidth, Translate, Unwrap, LineFeed, Put, FeedOf, Grown, Valid;
    GrownByNothing(s.history);
    if w != 0 {
      UnwrapKeepsBounds(s);
      UnwrapFeeds(s);
      var t := Unwrap(s);
      var a := if s.wrap && s.autowrap then FeedOf(s) else [];
      if w == 2 && t.cx + 1 >= t.cols {
        if t.autowrap {
          FeedIgnoresCursor(t);
          LineFeedKeepsBounds(t.(cx := 0));
          LineFeedFeeds(t.(cx := 0));
          PutKeepsHistory(LineFeed(t.(cx := 0)), cp, w);
          GrownTwice(s.history, a, FeedOf(t));
        } else {
          assert a + [] == a;
        }
      } else {
        PutKeepsHistory(t, cp, w);
        assert a + [] == a;
      }
    }
  }

  lemma OtherOrdersKeepHistory(s: Scr, ambiguous: bool, o: Order)
    requires Valid(s) && !o.OPrint? && !o.OLineFeed? && !o.ONextLine?
    ensures Do(s, ambiguous, o).history == s.history
  {
    hide EraseSpan, InsertChars, DeleteChars, NextTab, BlankGrid, Reshape, DefaultTabs;
  }

  /** One order adds to the history exactly the rows it sends away. */
  lemma OrderFeeds(s: Scr, ambiguous: bool, o: Order)
    requires Valid(s)
    ensures Do(s, ambiguous, o).history == Grown(s.history, FedBy(s, ambiguous, o))
  {
    hide Screen.Print, LineFeed, FeedOf, PrintFeeds, Grown, Valid;
    match o
    case OPrint(cp) => PrintFeedsHistory(s, ambiguous, cp);
    case OLineFeed => LineFeedFeeds(s);
    case ONextLine =>
      FeedIgnoresCursor(s);
      LineFeedFeeds(CarriageReturn(s));
    case _ =>
      OtherOrdersKeepHistory(s, ambiguous, o);
      GrownByNothing(s.history);
      hide Do;
  }

  /** History conservation: over any run of orders, on either page, with any regions and resizes, the
      history grows by exactly the rows the orders sent away. */
  lemma {:induction false} RunFeeds(s: Scr, ambiguous: bool, os: seq<Order>)
    requires Valid(s)
    ensures Run(s, ambiguous, os).history == Grown(s.history, Fed(s, ambiguous, os))
    decreases |os|
  {
    hide Do, FedBy, Valid, Grown;
    if os == [] {
      GrownByNothing(s.history);
    } else {
      OrderKeepsBounds(s, ambiguous, os[0]);
      OrderFeeds(s, ambiguous, os[0]);
      var t := Do(s, ambiguous, os[0]);
      RunFeeds(t, ambiguous, os[1..]);
      GrownTwice(s.history, FedBy(s, ambiguous, os[0]), Fed(t, ambiguous, os[1..]));
    }
  }

  /** The last n lines. */
  function Last(lines: seq<Line>, n: nat): seq<Line> {
    if |lines| <= n then lines else lines[|lines| - n..]
  }

  lemma {:induction false} PushAllKeepsLast(h: History, rows: seq<Row>)
    requires Sound(h)
    ensures PushAll(h, rows).capacity == h.capacity
    ensures PushAll(h, rows).lines == Last(h.lines + TrimAll(rows), h.capacity)
    decreases |rows|
  {
    hide Trim;
    if rows == [] {
      assert h.lines + TrimAll([]) == h.lines;
    } else {
      var next := Push(h, rows[0]);
      assert TrimAll(rows) == [Trim(rows[0])] + TrimAll(rows[1..]);
      PushIsLast(h, rows[0]);
      hide Push, TrimAll;
      PushAllKeepsLast(next, rows[1..]);
      LastOfLast(h.lines + [Trim(rows[0])], TrimAll(rows[1..]), h.capacity);
      assert h.lines + ([Trim(rows[0])] + TrimAll(rows[1..])) == (h.lines + [Trim(rows[0])]) + TrimAll(rows[1..]);
    }
  }

  lemma PushIsLast(h: History, row: Row)
    requires Sound(h)
    ensures Sound(Push(h, row)) && Push(h, row).capacity == h.capacity
    ensures Push(h, row).lines == Last(h.lines + [Trim(row)], h.capacity)
  {
    hide Trim;
  }

  lemma LastOfLast(a: seq<Line>, b: seq<Line>, n: nat)
    ensures Last(Last(a, n) + b, n) == Last(a + b, n)
  {
  }

  /** Over any run the history is the last `capacity` of the old lines followed by the rows sent away. */
  lemma HistoryIsTheLastLines(s: Scr, ambiguous: bool, os: seq<Order>)
    requires Valid(s) && s.history.Some?
    ensures var h, now := s.history.value, Run(s, ambiguous, os).history;
      now.Some? && now.value.lines == Last(h.lines + TrimAll(Fed(s, ambiguous, os)), h.capacity)
  {
    assert Sound(s.history.value);
    hide Valid, Run, Fed, PushAll, TrimAll, Last;
    RunFeeds(s, ambiguous, os);
    PushAllKeepsLast(s.history.value, Fed(s, ambiguous, os));
  }

  /** A scrolled-back view shows the same lines over any run, less those that were evicted. */
  lemma ViewOutlivesRun(s: Scr, ambiguous: bool, os: seq<Order>, k: nat)
    requires Valid(s) && s.history.Some?
    requires var h, n := s.history.value, |Fed(s, ambiguous, os)|;
      h.offset > 0 && n + h.offset <= h.capacity + k && k < h.offset
    ensures var h, now := s.history.value, Run(s, ambiguous, os).history;
      var n := |Fed(s, ambiguous, os)|;
      var lost := if h.offset + n > h.capacity then h.offset + n - h.capacity else 0;
      now.Some? && Sound(now.value) && k - lost < now.value.offset && Viewed(now.value, k - lost) == Viewed(h, k)
  {
    assert Sound(s.history.value);
    hide Valid, Run, Fed, PushAll, Viewed;
    RunFeeds(s, ambiguous, os);
    ViewStaysPut(s.history.value, Fed(s, ambiguous, os), k);
  }
}
