/** The cursor both iterators are meant to be: one position in the in-range entries, one at a time. */
module PlainCursor {
  import opened Basics
  import opened Views
  import opened Walks

  /** `view` is what was in range when the walk was last positioned; `at == |view|` is exhausted.
      A `rewound` cursor re-reads the store on its next advance. */
  datatype Cursor = Cursor(view: seq<Entry>, at: nat, rewound: bool) {
    ghost predicate Valid() { at <= |view| }

    function Here(): Option<Entry> {
      if at < |view| then Some(view[at]) else None
    }

    /** Advance one entry, or land on the first one of `now`, the store's view at this moment. */
    function Next(now: seq<Entry>): Cursor {
      if rewound then Cursor(now, 0, false)
      else if at < |view| then Cursor(view, at + 1, false)
      else this
    }

    function Seek(now: seq<Entry>, target: Bytes, reverse: bool): Cursor {
      Cursor(now, CountEarlier(now, target, reverse), false)
    }

    function Reset(): Cursor {
      this.(rewound := true)
    }

    /** The entries following advances land on. */
    function Coming(now: seq<Entry>): seq<Entry> {
      if rewound then now else if at < |view| then view[at + 1..] else []
    }

    /** `n` advances in a row. */
    function Steps(now: seq<Entry>, n: nat): Cursor
      decreases n
    {
      if n == 0 then this else Next(now).Steps(now, n - 1)
    }
  }

  const Unpositioned: Cursor := Cursor([], 0, true)

  /** Advancing visits exactly what is coming, in order, then stays exhausted. */
  lemma {:induction false} StepsVisitComing(c: Cursor, now: seq<Entry>, n: nat)
    requires c.Valid() && n > 0
    ensures var s := c.Steps(now, n);
            && s.Valid() && !s.rewound && s.view == (if c.rewound then now else c.view)
            && s.Here() == (if n <= |c.Coming(now)| then Some(c.Coming(now)[n - 1]) else None)
            && s.Coming([]) == (if n <= |c.Coming(now)| then c.Coming(now)[n..] else [])
    decreases n
  {
    var s := c.Next(now);
    assert s.Valid() && !s.rewound && s.Coming(now) == s.Coming([]);
    if n == 1 {
      assert c.Steps(now, n) == s.Steps(now, 0) == s;
    } else {
      StepsVisitComing(s, now, n - 1);
    }
  }

  /** An advance into what a cursor has coming is an advance of the cursor. */
  lemma NextAdvances(c: Cursor, now: seq<Entry>, f: Future)
    requires c.Valid() && f.failure == None && f.rest == if c.rewound then now else c.Coming([])
    ensures var next := c.Next(now);
            && next.Valid() && !next.rewound
            && f.Outcome() == Ok(next.Here().Some?) && f.Here() == next.Here()
            && f.Beyond().failure == None && f.Beyond().rest == next.Coming([])
  {
  }

  /** So is a seek. */
  lemma SeekAdvances(c: Cursor, now: seq<Entry>, target: Bytes, reverse: bool, f: Future)
    requires f.failure == None && f.rest == now[CountEarlier(now, target, reverse)..]
    ensures var next := c.Seek(now, target, reverse);
            && next.Valid() && !next.rewound
            && f.Outcome() == Ok(next.Here().Some?) && f.Here() == next.Here()
            && f.Beyond().failure == None && f.Beyond().rest == next.Coming([])
            && (f.rest == [] ==> next.Coming([]) == [])
  {
  }
}
