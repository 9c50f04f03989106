/** The readdir cookie table: a bounded table of recently used cookies, proved
    against an unbounded recency stack and against the history of its calls. */
module Cookies {

  import opened Common

  type Cookie = nat

  datatype Entry = Entry(cookie: Cookie, token: string)

  /** Zero marks the start of a directory, so a zero hash becomes one. */
  function CookieOf(hash: string -> Cookie, dir: string, name: string): Cookie {
    if name == "" then 0 else if hash(dir + name) == 0 then 1 else hash(dir + name)
  }

  /** The end of a directory has cookie zero and no entry has; otherwise the cookie is
      the hash of directory and name. */
  lemma CookieExactly(hash: string -> Cookie, dir: string, name: string)
    ensures CookieOf(hash, dir, name) == 0 <==> name == ""
    ensures name != "" && hash(dir + name) != 0 ==> CookieOf(hash, dir, name) == hash(dir + name)
    ensures name != "" && hash(dir + name) == 0 ==> CookieOf(hash, dir, name) == 1
  {
  }

  // ---- recency stacks, most recent first ----

  function Find(st: seq<Entry>, c: Cookie): Option<Entry> {
    if st == [] then None else if st[0].cookie == c then Some(st[0]) else Find(st[1..], c)
  }

  function Without(st: seq<Entry>, c: Cookie): seq<Entry> {
    if st == [] then [] else if st[0].cookie == c then st[1..] else [st[0]] + Without(st[1..], c)
  }

  function Promote(st: seq<Entry>, e: Entry): seq<Entry> {
    [e] + Without(st, e.cookie)
  }

  function Take(st: seq<Entry>, n: nat): seq<Entry> {
    if st == [] || n == 0 then [] else [st[0]] + Take(st[1..], n - 1)
  }

  predicate Distinct(st: seq<Entry>) {
    st == [] || (Find(st[1..], st[0].cookie).None? && Distinct(st[1..]))
  }

  // ---- the bounded table ----

  function Generated(l: seq<Entry>, e: Entry, cap: nat): seq<Entry> {
    Take(Promote(l, e), cap)
  }

  function Resolve(l: seq<Entry>, c: Cookie): Option<Entry> {
    if c == 0 then None else Find(l, c)
  }

  function Resolved(l: seq<Entry>, c: Cookie): seq<Entry> {
    match Resolve(l, c)
    case Some(e) => Promote(l, e)
    case None => l
  }

  // ---- histories ----

  datatype Event = Generate(cookie: Cookie, name: string) | Get(cookie: Cookie) | Clear

  function Next(l: seq<Entry>, ev: Event, cap: nat): seq<Entry> {
    match ev
    case Generate(c, name) => Generated(l, Entry(c, name), cap)
    case Get(c) => Resolved(l, c)
    case Clear => []
  }

  function Front<T>(s: seq<T>): seq<T>
    requires s != []
  {
    s[..|s| - 1]
  }

  function Last<T>(s: seq<T>): T
    requires s != []
  {
    s[|s| - 1]
  }

  /** The table after a history. */
  function Table(events: seq<Event>, cap: nat): seq<Entry> {
    if events == [] then [] else Next(Table(Front(events), cap), Last(events), cap)
  }

  /** The touches since the last clear, latest first: every generation, and every
      resolution that succeeded. */
  function Touches(events: seq<Event>, cap: nat): seq<Entry> {
    if events == [] then []
    else
      var before := Touches(Front(events), cap);
      match Last(events)
      case Generate(c, name) => [Entry(c, name)] + before
      case Get(c) =>
        (match Resolve(Table(Front(events), cap), c)
         case Some(e) => [e] + before
         case None => before)
      case Clear => []
  }

  /** The unbounded recency stack. */
  function Ideal(touches: seq<Entry>): seq<Entry> {
    if touches == [] then [] else Promote(Ideal(touches[1..]), touches[0])
  }

  lemma {:induction false} FindWithout(st: seq<Entry>, x: Cookie, c: Cookie)
    requires Distinct(st)
    ensures Distinct(Without(st, x))
    ensures Find(Without(st, x), c) == if c == x then None else Find(st, c)
  {
    if st != [] && st[0].cookie != x {
      FindWithout(st[1..], x, c);
      FindWithout(st[1..], x, st[0].cookie);
      assert Without(st, x)[1..] == Without(st[1..], x);
    }
  }

  lemma FindPromote(st: seq<Entry>, e: Entry, c: Cookie)
    requires Distinct(st)
    ensures Distinct(Promote(st, e))
    ensures Find(Promote(st, e), c) == if c == e.cookie then Some(e) else Find(st, c)
  {
    FindWithout(st, e.cookie, c);
    FindWithout(st, e.cookie, e.cookie);
    assert Promote(st, e)[1..] == Without(st, e.cookie);
  }

  lemma {:induction false} IdealDistinct(touches: seq<Entry>)
    ensures Distinct(Ideal(touches))
  {
    if touches != [] {
      IdealDistinct(touches[1..]);
      FindPromote(Ideal(touches[1..]), touches[0], touches[0].cookie);
    }
  }

  lemma {:induction false} TakeLess(st: seq<Entry>, n: nat, m: nat)
    requires m <= n
    ensures Take(Take(st, n), m) == Take(st, m)
    ensures |Take(st, n)| <= n
  {
    if st != [] && n > 0 {
      TakeLess(st[1..], n - 1, if m > 0 then m - 1 else 0);
      assert Take(st, n)[1..] == Take(st[1..], n - 1);
    }
  }

  lemma {:induction false} TakeWithout(st: seq<Entry>, c: Cookie, n: nat)
    ensures Take(Without(Take(st, n + 1), c), n) == Take(Without(st, c), n)
  {
    if st != [] {
      assert Take(st, n + 1)[1..] == Take(st[1..], n);
      if st[0].cookie == c {
        TakeLess(st[1..], n, n);
      } else if n > 0 {
        TakeWithout(st[1..], c, n - 1);
        assert Without(Take(st, n + 1), c)[1..] == Without(Take(st[1..], n), c);
        assert Without(st, c)[1..] == Without(st[1..], c);
      }
    }
  }

  /** Bounding before or after a promotion makes no difference. */
  lemma PromoteTake(st: seq<Entry>, e: Entry, cap: nat)
    requires 1 <= cap
    ensures Take(Promote(Take(st, cap), e), cap) == Take(Promote(st, e), cap)
  {
    TakeWithout(st, e.cookie, cap - 1);
    assert Promote(Take(st, cap), e)[1..] == Without(Take(st, cap), e.cookie);
    assert Promote(st, e)[1..] == Without(st, e.cookie);
  }

  lemma {:induction false} WithoutShrinks(st: seq<Entry>, c: Cookie)
    ensures |Without(st, c)| == |st| - if Find(st, c).Some? then 1 else 0
  {
    if st != [] && st[0].cookie != c {
      WithoutShrinks(st[1..], c);
    }
  }

  lemma {:induction false} TakeAll(st: seq<Entry>, n: nat)
    requires |st| <= n
    ensures Take(st, n) == st
  {
    if st != [] {
      TakeAll(st[1..], n - 1);
    }
  }

  /** Promoting an entry that is held never pushes another out. */
  lemma PromoteHeld(st: seq<Entry>, c: Cookie, cap: nat)
    requires 1 <= cap && Find(Take(st, cap), c).Some?
    ensures var e := Find(Take(st, cap), c).value;
            Promote(Take(st, cap), e) == Take(Promote(st, e), cap)
  {
    var l := Take(st, cap);
    var e := Find(l, c).value;
    FindCookie(l, c);
    PromoteTake(st, e, cap);
    TakeLess(st, cap, cap);
    WithoutShrinks(l, c);
    TakeAll(Promote(l, e), cap);
  }

  lemma {:induction false} FindCookie(st: seq<Entry>, c: Cookie)
    requires Find(st, c).Some?
    ensures Find(st, c).value.cookie == c
  {
    if st[0].cookie != c {
      FindCookie(st[1..], c);
    }
  }

  /** The bounded table is always the top of the recency stack. */
  lemma {:induction false} TableIsTop(events: seq<Event>, cap: nat)
    requires 1 <= cap
    ensures Table(events, cap) == Take(Ideal(Touches(events, cap)), cap)
  {
    if events != [] {
      TableIsTop(Front(events), cap);
      var before := Touches(Front(events), cap);
      var l := Table(Front(events), cap);
      match Last(events)
      case Generate(c, name) =>
        PromoteTake(Ideal(before), Entry(c, name), cap);
        assert ([Entry(c, name)] + before)[1..] == before;
      case Get(c) =>
        if Resolve(l, c).Some? {
          PromoteHeld(Ideal(before), c, cap);
          assert ([Find(l, c).value] + before)[1..] == before;
        }
      case Clear =>
    }
  }

  // ---- when a cookie resolves ----

  predicate Touched(touches: seq<Entry>, c: Cookie) {
    exists i :: 0 <= i < |touches| && touches[i].cookie == c
  }

  /** The distinct cookies before the first entry for `c`: in a history, those
      touched since its last touch; in a stack, those above it. */
  function Before(st: seq<Entry>, c: Cookie): set<Cookie> {
    if st == [] || st[0].cookie == c then {} else {st[0].cookie} + Before(st[1..], c)
  }

  lemma {:induction false} BeforeWithout(st: seq<Entry>, x: Cookie, c: Cookie)
    requires Distinct(st) && x != c
    ensures Before(Without(st, x), c) == Before(st, c) - {x}
  {
    if st != [] {
      if st[0].cookie == x {
        if x in Before(st[1..], c) {
          BeforeFound(st[1..], c, x);
        }
      } else {
        BeforeWithout(st[1..], x, c);
        assert Without(st, x)[1..] == Without(st[1..], x);
      }
    }
  }

  lemma {:induction false} BeforeFound(st: seq<Entry>, c: Cookie, x: Cookie)
    requires x in Before(st, c)
    ensures Find(st, x).Some?
  {
    if x != st[0].cookie {
      BeforeFound(st[1..], c, x);
    }
  }

  lemma TouchedStep(touches: seq<Entry>, c: Cookie)
    requires touches != []
    ensures Touched(touches, c) <==> touches[0].cookie == c || Touched(touches[1..], c)
  {
    assert forall i :: 0 <= i < |touches| - 1 ==> touches[1..][i] == touches[i + 1];
  }

  /** What lies above a cookie in the stack is what was touched since. */
  lemma {:induction false} AboveIsSince(touches: seq<Entry>, c: Cookie)
    ensures Find(Ideal(touches), c).Some? <==> Touched(touches, c)
    ensures Before(Ideal(touches), c) == Before(touches, c)
  {
    if touches != [] {
      var st := Ideal(touches[1..]);
      AboveIsSince(touches[1..], c);
      TouchedStep(touches, c);
      IdealDistinct(touches[1..]);
      FindPromote(st, touches[0], c);
      if touches[0].cookie != c {
        BeforeWithout(st, touches[0].cookie, c);
        assert Promote(st, touches[0])[1..] == Without(st, touches[0].cookie);
      }
    }
  }

  /** The top `n` of a stack holds a cookie exactly when fewer than `n` lie
      above it. */
  lemma {:induction false} FindTake(st: seq<Entry>, n: nat, c: Cookie)
    requires Distinct(st)
    ensures Find(Take(st, n), c) == if |Before(st, c)| < n then Find(st, c) else None
  {
    if st != [] && n > 0 {
      assert Take(st, n)[1..] == Take(st[1..], n - 1);
      if st[0].cookie != c {
        FindTake(st[1..], n - 1, c);
        if st[0].cookie in Before(st[1..], c) {
          BeforeFound(st[1..], c, st[0].cookie);
        }
      }
    }
  }

  /** The name last generated for a cookie since the last clear. */
  function LastName(events: seq<Event>, c: Cookie): Option<string> {
    if events == [] then None
    else match Last(events)
      case Generate(d, name) => if d == c then Some(name) else LastName(Front(events), c)
      case Get(_) => LastName(Front(events), c)
      case Clear => None
  }

  lemma {:induction false} TokensAreLastNames(events: seq<Event>, c: Cookie, cap: nat)
    requires 1 <= cap
    ensures var e := Find(Ideal(Touches(events, cap)), c); e.Some? ==> LastName(events, c) == Some(e.value.token)
  {
    if events != [] {
      TokensAreLastNames(Front(events), c, cap);
      var before := Touches(Front(events), cap);
      var l := Table(Front(events), cap);
      IdealDistinct(before);
      match Last(events)
      case Generate(d, name) =>
        FindPromote(Ideal(before), Entry(d, name), c);
        assert ([Entry(d, name)] + before)[1..] == before;
      case Get(d) =>
        if Resolve(l, d).Some? {
          TableIsTop(Front(events), cap);
          FindTake(Ideal(before), cap, d);
          FindCookie(l, d);
          FindPromote(Ideal(before), Find(l, d).value, c);
          assert ([Find(l, d).value] + before)[1..] == before;
        }
      case Clear =>
    }
  }

  /** A cookie resolves exactly when fewer than `cap` distinct other cookies were
      touched since its last touch, and then to the name last generated for it. */
  lemma ResolvesExactly(events: seq<Event>, c: Cookie, cap: nat)
    requires 1 <= cap && c != 0
    ensures Resolve(Table(events, cap), c).Some? <==>
            Touched(Touches(events, cap), c) && |Before(Touches(events, cap), c)| < cap
    ensures var e := Resolve(Table(events, cap), c); e.Some? ==> LastName(events, c) == Some(e.value.token)
    ensures |Table(events, cap)| <= cap
  {
    var touches := Touches(events, cap);
    TableIsTop(events, cap);
    AboveIsSince(touches, c);
    IdealDistinct(touches);
    FindTake(Ideal(touches), cap, c);
    TakeLess(Ideal(touches), cap, cap);
    TokensAreLastNames(events, c, cap);
  }
}
