/** The cookie manager itself: a map and a recency list that share their entries,
    changed together in place. */
module CookieTable {

  import opened Common
  import opened Cookies

  class CookieEntry {
    const cookie: Cookie
    var token: string

    constructor (cookie: Cookie, token: string)
      ensures this.cookie == cookie && this.token == token
    {
      this.cookie, this.token := cookie, token;
    }
  }

  ghost function Values(order: seq<CookieEntry>): (r: seq<Entry>)
    reads order
    ensures |r| == |order|
  {
    if order == [] then [] else [Entry(order[0].cookie, order[0].token)] + Values(order[1..])
  }

  ghost predicate Unrepeated(order: seq<CookieEntry>) {
    forall i, j :: 0 <= i < j < |order| ==> order[i].cookie != order[j].cookie
  }

  ghost predicate Indexed(index: map<Cookie, CookieEntry>, order: seq<CookieEntry>) {
    && (forall e :: e in order ==> e.cookie in index && index[e.cookie] == e)
    && (forall c :: c in index ==> index[c] in order && index[c].cookie == c)
  }

  function Others(order: seq<CookieEntry>, i: nat): seq<CookieEntry>
    requires i < |order|
  {
    order[..i] + order[i + 1..]
  }

  function Fronted(order: seq<CookieEntry>, i: nat): seq<CookieEntry>
    requires i < |order|
  {
    [order[i]] + Others(order, i)
  }

  lemma FrontedUnrepeated(order: seq<CookieEntry>, i: nat)
    requires Unrepeated(order) && i < |order|
    ensures Unrepeated(Fronted(order, i))
  {
    var r := Fronted(order, i);
    assert forall j :: 0 < j <= i ==> r[j] == order[j - 1];
    assert forall j :: i < j < |order| ==> r[j] == order[j];
  }

  lemma FrontedMembers(order: seq<CookieEntry>, i: nat)
    requires i < |order|
    ensures forall e :: e in Fronted(order, i) <==> e in order
  {
    assert order == order[..i] + ([order[i]] + order[i + 1..]);
  }

  lemma EvictedIndexed(index: map<Cookie, CookieEntry>, order: seq<CookieEntry>)
    requires Unrepeated(order) && Indexed(index, order) && order != []
    ensures Unrepeated(Front(order)) && Indexed(index - {Last(order).cookie}, Front(order))
  {
    assert order == Front(order) + [Last(order)];
    forall e | e in Front(order) ensures e.cookie != Last(order).cookie {
      var i :| 0 <= i < |Front(order)| && Front(order)[i] == e;
    }
  }

  lemma PushedIndexed(index: map<Cookie, CookieEntry>, order: seq<CookieEntry>, el: CookieEntry)
    requires Unrepeated(order) && Indexed(index, order) && el.cookie !in index
    ensures Unrepeated([el] + order) && Indexed(index[el.cookie := el], [el] + order)
  {
    forall i | 0 <= i < |order| ensures order[i].cookie != el.cookie {
      assert order[i] in order;
    }
  }

  lemma {:induction false} FindValues(order: seq<CookieEntry>, i: nat)
    requires Unrepeated(order) && i < |order|
    ensures Find(Values(order), order[i].cookie) == Some(Entry(order[i].cookie, order[i].token))
    ensures Without(Values(order), order[i].cookie) == Values(Others(order, i))
  {
    assert Values(order)[1..] == Values(order[1..]);
    if i == 0 {
      assert Others(order, 0) == order[1..];
    } else {
      FindValues(order[1..], i - 1);
      assert Others(order, i)[1..] == Others(order[1..], i - 1);
    }
  }

  lemma {:induction false} FindNone(order: seq<CookieEntry>, c: Cookie)
    requires forall e :: e in order ==> e.cookie != c
    ensures Find(Values(order), c) == None && Without(Values(order), c) == Values(order)
  {
    if order != [] {
      assert order[0] in order;
      FindNone(order[1..], c);
      assert Values(order)[1..] == Values(order[1..]);
    }
  }

  lemma ValuesPushed(el: CookieEntry, order: seq<CookieEntry>)
    ensures Values([el] + order) == [Entry(el.cookie, el.token)] + Values(order)
  {
    assert ([el] + order)[1..] == order;
  }

  lemma ValuesFronted(order: seq<CookieEntry>, i: nat)
    requires Unrepeated(order) && i < |order|
    ensures Values(Fronted(order, i)) == Promote(Values(order), Entry(order[i].cookie, order[i].token))
  {
    FindValues(order, i);
    ValuesPushed(order[i], Others(order, i));
  }

  lemma {:induction false} ValuesTake(order: seq<CookieEntry>, n: nat)
    requires n <= |order|
    ensures Values(order[..n]) == Take(Values(order), n)
  {
    if n > 0 {
      ValuesTake(order[1..], n - 1);
      assert Values(order)[1..] == Values(order[1..]);
      assert order[..n][1..] == order[1..][..n - 1];
    }
  }

  /** Generating an unknown cookie is a push on what one eviction leaves. */
  lemma GeneratedNew(l: seq<Entry>, e: Entry, cap: nat)
    requires 1 <= cap && Without(l, e.cookie) == l
    ensures Generated(l, e, cap) == [e] + Take(l, cap - 1)
  {
    assert ([e] + l)[1..] == l;
  }

  class CookieManager {
    const hash: string -> Cookie
    const maxSize: nat
    var index: map<Cookie, CookieEntry>
    var order: seq<CookieEntry>

    /** Map and list hold the same entries, one per cookie, within the bound. */
    ghost predicate Valid()
      reads this
    {
      1 <= maxSize && |order| <= maxSize && Unrepeated(order) && Indexed(index, order)
    }

    ghost function Contents(): seq<Entry>
      reads this, order
    {
      Values(order)
    }

    constructor (hash: string -> Cookie, maxSize: nat)
      requires 1 <= maxSize
      ensures Valid() && Contents() == [] && this.hash == hash && this.maxSize == maxSize
    {
      this.hash, this.maxSize := hash, maxSize;
      index, order := map[], [];
    }

    method MoveToFront(el: CookieEntry)
      requires Valid() && el in order
      modifies `order
      ensures Valid() && forall e :: e in order ==> e in old(order)
      ensures Contents() == Promote(old(Contents()), Entry(el.cookie, el.token))
    {
      var i :| 0 <= i < |order| && order[i] == el;
      FrontedUnrepeated(order, i);
      FrontedMembers(order, i);
      ValuesFronted(order, i);
      order := Fronted(order, i);
    }

    method RemoveBack()
      requires Valid() && order != []
      modifies `index, `order
      ensures Valid() && index.Keys <= old(index.Keys) && forall e :: e in order ==> e in old(order)
      ensures |order| == |old(order)| - 1 && Contents() == Take(old(Contents()), |order|)
    {
      var victim := Last(order);
      EvictedIndexed(index, order);
      ValuesTake(order, |order| - 1);
      index := index - {victim.cookie};
      order := Front(order);
    }

    method EvictToFit()
      requires Valid()
      modifies `index, `order
      ensures Valid() && |order| < maxSize
      ensures index.Keys <= old(index.Keys) && forall e :: e in order ==> e in old(order)
      ensures Contents() == Take(old(Contents()), maxSize - 1)
    {
      TakeAll(Contents(), |order|);
      while |order| >= maxSize
        invariant Valid() && |order| <= |old(order)|
        invariant index.Keys <= old(index.Keys) && forall e :: e in order ==> e in old(order)
        invariant Contents() == Take(old(Contents()), |order|)
        invariant |order| >= maxSize - 1 || |order| == |old(order)|
      {
        TakeLess(old(Contents()), |order|, |order| - 1);
        RemoveBack();
      }
      if |order| < maxSize - 1 {
        TakeAll(old(Contents()), maxSize - 1);
      }
    }

    /** Overwrites the token of a listed entry. */
    method Refresh(el: CookieEntry, name: string)
      requires Valid() && el in order
      modifies el
      ensures el.token == name
      ensures Without(Contents(), el.cookie) == Without(old(Contents()), el.cookie)
      ensures |Without(Contents(), el.cookie)| == |order| - 1
    {
      ghost var i :| 0 <= i < |order| && order[i] == el;
      FindValues(order, i);
      assert el !in Others(order, i);
      el.token := name;
      FindValues(order, i);
    }

    method PushFront(el: CookieEntry)
      requires Valid() && |order| < maxSize && el.cookie !in index
      modifies `index, `order
      ensures Valid() && order == [el] + old(order)
      ensures Contents() == [Entry(el.cookie, el.token)] + old(Contents())
    {
      PushedIndexed(index, order, el);
      ValuesPushed(el, order);
      order := [el] + order;
      index := index[el.cookie := el];
    }

    /** Inserts a new cookie, evicting from the back while the list is full. */
    method Insert(cookie: Cookie, name: string)
      requires Valid() && cookie !in index
      modifies `index, `order
      ensures Valid() && forall e :: e in order ==> e in old(order) || fresh(e)
      ensures Contents() == Generated(old(Contents()), Entry(cookie, name), maxSize)
    {
      FindNone(order, cookie);
      GeneratedNew(Contents(), Entry(cookie, name), maxSize);
      EvictToFit();
      var el := new CookieEntry(cookie, name);
      PushFront(el);
    }

    method GenerateCookie(dir: string, name: string) returns (cookie: Cookie)
      requires Valid()
      modifies this, order
      ensures Valid() && forall e :: e in order ==> e in old(order) || fresh(e)
      ensures cookie == CookieOf(hash, dir, name)
      ensures name == "" ==> Contents() == old(Contents())
      ensures name != "" ==> Contents() == Generated(old(Contents()), Entry(cookie, name), maxSize)
    {
      if name == "" { return 0; }
      cookie := hash(dir + name);
      if cookie == 0 { cookie := 1; }
      if cookie in index {
        var el := index[cookie];
        Refresh(el, name);
        MoveToFront(el);
        TakeAll(Contents(), maxSize);
        return;
      }
      Insert(cookie, name);
    }

    method GetToken(cookie: Cookie) returns (token: string)
      requires Valid()
      modifies `order
      ensures Valid() && forall e :: e in order ==> e in old(order)
      ensures var found := Resolve(old(Contents()), cookie); token == if found.Some? then found.value.token else ""
      ensures Contents() == Resolved(old(Contents()), cookie)
    {
      if cookie == 0 { return ""; }
      if cookie in index {
        var el := index[cookie];
        ghost var i :| 0 <= i < |order| && order[i] == el;
        FindValues(order, i);
        MoveToFront(el);
        return el.token;
      }
      FindNone(order, cookie);
      token := "";
    }

    method Clear()
      requires Valid()
      modifies this
      ensures Valid() && Contents() == []
    {
      index, order := map[], [];
    }
  }
}
