/** The art behind the cards: a focused card, item fetches that outlive it, and two cross-fading layers. */
module Backdrop {
  import opened Prelude

  type Card = nat
  type Id = nat
  type Item = nat
  type Url = nat

  // ----- the item cache -----

  const ITEM_CACHE_MAX: nat := 64

  /** Items by id, and their ids from the oldest to the newest. */
  datatype Store = Store(cache: map<Id, Item>, keys: seq<Id>)

  /** The store after the oldest keys went, once there are too many. */
  function Evicted(s: Store): Store
    decreases |s.keys|
  {
    if |s.keys| > ITEM_CACHE_MAX then Evicted(Store(s.cache - {s.keys[0]}, s.keys[1..])) else s
  }

  function Cached(s: Store, id: Id, item: Item): Store {
    if id in s.cache then s.(cache := s.cache[id := item])
    else
      var rest := Evicted(s.(keys := s.keys + [id]));
      rest.(cache := rest.cache[id := item])
  }

  function KeySet(keys: seq<Id>): set<Id> {
    set k | k in keys
  }

  predicate StoreOk(s: Store) {
    Distinct(s.keys) && KeySet(s.keys) == s.cache.Keys && |s.keys| <= ITEM_CACHE_MAX
  }

  lemma TailKeySet(keys: seq<Id>)
    requires Distinct(keys) && keys != []
    ensures KeySet(keys[1..]) == KeySet(keys) - {keys[0]} && Distinct(keys[1..])
  {
    assert keys == [keys[0]] + keys[1..];
    assert keys[0] !in keys[1..];
    assert forall k :: k in keys <==> k == keys[0] || k in keys[1..];
  }

  /** Eviction drops the oldest keys and exactly their entries; the key just pushed has no entry yet. */
  lemma {:induction false} EvictKeepsStore(s: Store)
    requires s.keys != [] && Distinct(s.keys)
    requires s.cache.Keys == KeySet(s.keys) - {s.keys[|s.keys| - 1]}
    ensures var e := Evicted(s);
            && e.keys == s.keys[|s.keys| - Min(|s.keys|, ITEM_CACHE_MAX)..] && Distinct(e.keys)
            && e.cache.Keys == KeySet(e.keys) - {s.keys[|s.keys| - 1]}
            && forall i | i in e.cache :: i in s.cache && e.cache[i] == s.cache[i]
    decreases |s.keys|
  {
    if |s.keys| > ITEM_CACHE_MAX {
      TailKeySet(s.keys);
      assert s.keys[0] != s.keys[|s.keys| - 1];
      EvictKeepsStore(Store(s.cache - {s.keys[0]}, s.keys[1..]));
    }
  }

  lemma PushedKeySet(s: Store, id: Id)
    requires StoreOk(s) && id !in s.cache
    ensures var keys := s.keys + [id];
            Distinct(keys) && KeySet(keys) - {id} == s.cache.Keys && id in KeySet(keys)
  {
    var keys := s.keys + [id];
    assert id in KeySet(s.keys) <==> id in s.keys;
    assert forall k :: k in keys <==> k in s.keys || k == id;
  }

  lemma FilledStoreOk(e: Store, id: Id, item: Item)
    requires Distinct(e.keys) && id in KeySet(e.keys) && |e.keys| <= ITEM_CACHE_MAX
    requires e.cache.Keys == KeySet(e.keys) - {id}
    ensures StoreOk(e.(cache := e.cache[id := item]))
  {
    assert e.cache[id := item].Keys == e.cache.Keys + {id};
  }

  lemma NewestIsKept(s: Store, id: Id, item: Item)
    requires StoreOk(s) && id !in s.cache
    ensures var e := Evicted(s.(keys := s.keys + [id]));
            && e.keys == (s.keys + [id])[|s.keys| + 1 - Min(|s.keys| + 1, ITEM_CACHE_MAX)..]
            && StoreOk(e.(cache := e.cache[id := item]))
            && forall i | i in e.cache :: i in s.cache && e.cache[i] == s.cache[i]
  {
    PushedKeySet(s, id);
    var pushed := s.(keys := s.keys + [id]);
    EvictKeepsStore(pushed);
    var e := Evicted(pushed);
    assert e.keys[|e.keys| - 1] == id;
    FilledStoreOk(e, id, item);
  }

  /**
   * Storing an item keeps the key list duplicate-free and equal to the cache's
   * domain, at most 64 long, newest last; what stays cached is unchanged.
   */
  lemma CachedKeepsStore(s: Store, id: Id, item: Item)
    requires StoreOk(s)
    ensures var w := Cached(s, id, item);
            && StoreOk(w) && id in w.cache && w.cache[id] == item
            && (id in s.cache ==> w.keys == s.keys)
            && (id !in s.cache ==>
                  w.keys == (s.keys + [id])[|s.keys| + 1 - Min(|s.keys| + 1, 64)..])
            && forall i | i in w.cache && i != id :: i in s.cache && w.cache[i] == s.cache[i]
  {
    if id in s.cache {
      assert s.cache[id := item].Keys == s.cache.Keys;
    } else {
      NewestIsKept(s, id, item);
    }
  }

  // ----- the two layers -----

  datatype Layer = Layer(image: Option<Url>, on: bool)

  /** The layers, the one to fill next, the URL wanted, and the image loads still out. */
  datatype Screen = Screen(layers: seq<Layer>, slot: nat, current: Option<Url>, shown: bool, images: multiset<Url>)

  function AllOff(layers: seq<Layer>): seq<Layer> {
    seq(|layers|, k requires 0 <= k < |layers| => layers[k].(on := false))
  }

  function Cleared(s: Screen): Screen {
    s.(current := None, shown := false, layers := AllOff(s.layers))
  }

  function Wanting(s: Screen, url: Option<Url>): Screen {
    if s.layers == [] || url == s.current then s
    else if url == None then Cleared(s)
    else s.(current := url, images := s.images + multiset{url.value})
  }

  /** The layer to fill next is dark; the other one is lit while the backdrop shows. */
  predicate LayersOk(s: Screen) {
    && s.slot < 2 && (s.layers == [] || |s.layers| == 2)
    && (s.layers == [] ==> s.current == None && !s.shown)
    && (s.layers != [] ==> !s.layers[s.slot].on && (s.shown <==> s.layers[1 - s.slot].on))
  }

  /** The lit layer, if any, is the one filled last; it shows the URL wanted unless that load is still out. */
  predicate ScreenOk(s: Screen) {
    && LayersOk(s)
    && (s.current == None ==> !s.shown)
    && (s.current.Some? ==> s.current.value in s.images || (s.shown && s.layers[1 - s.slot].image == s.current))
  }

  function Loaded(s: Screen, url: Url): Screen
    requires ScreenOk(s)
  {
    var rest := s.(images := s.images - multiset{url});
    if s.current != Some(url) then rest
    else
      rest.(
        layers := s.layers[s.slot := Layer(Some(url), true)][1 - s.slot := s.layers[1 - s.slot].(on := false)],
        slot := 1 - s.slot, shown := true)
  }

  function Failed(s: Screen, url: Url): Screen {
    var rest := s.(images := s.images - multiset{url});
    if s.current == Some(url) then Cleared(rest) else rest
  }

  /** A load starts exactly when another URL is wanted on layers that exist, and is answered once. */
  lemma LoadsAreCounted(s: Screen, url: Url)
    requires ScreenOk(s)
    ensures Wanting(s, None).images == s.images
    ensures Wanting(s, Some(url)).images
            == s.images + if s.layers != [] && s.current != Some(url) then multiset{url} else multiset{}
    ensures url in s.images ==>
              Loaded(s, url).images + multiset{url} == s.images == Failed(s, url).images + multiset{url}
  {
  }

  /** A load or failure that nobody waits for any more changes nothing to be seen. */
  lemma StaleLoadsChangeNothing(s: Screen, url: Url)
    requires ScreenOk(s) && s.current != Some(url)
    ensures Loaded(s, url) == Failed(s, url) == s.(images := s.images - multiset{url})
  {
  }

  lemma ClearedStays(s: Screen)
    requires LayersOk(s)
    ensures ScreenOk(Cleared(s))
  {
  }

  lemma LoadedStays(s: Screen, url: Url)
    requires ScreenOk(s)
    ensures ScreenOk(Loaded(s, url))
  {
  }

  lemma WantingStays(s: Screen, url: Option<Url>)
    requires ScreenOk(s)
    ensures ScreenOk(Wanting(s, url))
  {
    ClearedStays(s);
  }

  lemma FailedStays(s: Screen, url: Url)
    requires ScreenOk(s)
    ensures ScreenOk(Failed(s, url))
  {
    ClearedStays(s.(images := s.images - multiset{url}));
  }

  // ----- the page -----

  datatype Fetch = InFlight | Resolved(item: Option<Item>)

  datatype Request = Request(card: Card, id: Id, fetch: Fetch)

  datatype View = View(focused: Option<Card>, token: nat, store: Store, screen: Screen, requests: map<nat, Request>)

  const INITIAL := View(None, 0, Store(map[], []), Screen([], 0, None, false, multiset{}), map[])

  datatype Event =
    | Focus(card: Option<Card>, tracked: bool, id: Option<Id>, api: bool)
    | Arrive(token: nat, item: Option<Item>)
    | Reject(token: nat)
    | Handle(token: nat, art: Option<Url>)
    | ImageLoad(url: Url)
    | ImageError(url: Url)
    | Clear
    | MakeLayers

  function Asked(v: View, card: Card, id: Id, api: bool): View {
    var w := v.(token := v.token + 1);
    if id in v.store.cache
    then w.(requests := v.requests[w.token := Request(card, id, Resolved(Some(v.store.cache[id])))])
    else if api then w.(requests := v.requests[w.token := Request(card, id, InFlight)])
    else w
  }

  function Focused(v: View, card: Option<Card>, tracked: bool, id: Option<Id>, api: bool): View {
    if card == v.focused then v
    else if card == None || !tracked || id == None then v.(focused := card)
    else Asked(v.(focused := card), card.value, id.value, api)
  }

  predicate HasFetch(v: View, token: nat, inFlight: bool) {
    token in v.requests && v.requests[token].fetch.InFlight? == inFlight
  }

  function Arrived(v: View, token: nat, item: Option<Item>): View
    requires HasFetch(v, token, true)
  {
    var r := v.requests[token];
    v.(store := if item.Some? then Cached(v.store, r.id, item.value) else v.store,
       requests := v.requests[token := r.(fetch := Resolved(item))])
  }

  /** A fetched item is used only for the latest request, and only while its card still has the focus. */
  predicate Wanted(v: View, token: nat)
    requires HasFetch(v, token, false)
  {
    token == v.token && v.requests[token].fetch.item.Some? && Some(v.requests[token].card) == v.focused
  }

  function Handled(v: View, token: nat, art: Option<Url>): View
    requires HasFetch(v, token, false)
  {
    v.(screen := if Wanted(v, token) then Wanting(v.screen, art) else v.screen, requests := v.requests - {token})
  }

  predicate Inv(v: View) {
    StoreOk(v.store) && ScreenOk(v.screen) && forall t | t in v.requests :: t <= v.token
  }

  predicate Possible(v: View, ev: Event) {
    match ev
    case Arrive(t, _) => HasFetch(v, t, true)
    case Reject(t) => HasFetch(v, t, true)
    case Handle(t, _) => HasFetch(v, t, false)
    case ImageLoad(u) => u in v.screen.images
    case ImageError(u) => u in v.screen.images
    case MakeLayers => v.screen.layers == []
    case _ => true
  }

  function Step(v: View, ev: Event): View
    requires Inv(v) && Possible(v, ev)
  {
    match ev
    case Focus(card, tracked, id, api) => Focused(v, card, tracked, id, api)
    case Arrive(t, item) => Arrived(v, t, item)
    case Reject(t) => v.(requests := v.requests - {t})
    case Handle(t, art) => Handled(v, t, art)
    case ImageLoad(u) => v.(screen := Loaded(v.screen, u))
    case ImageError(u) => v.(screen := Failed(v.screen, u))
    case Clear => v.(screen := Cleared(v.screen))
    case MakeLayers => v.(screen := v.screen.(layers := [Layer(None, false), Layer(None, false)]))
  }

  lemma StepKeepsInv(v: View, ev: Event)
    requires Inv(v) && Possible(v, ev)
    ensures Inv(Step(v, ev))
  {
    match ev {
      case Arrive(t, item) =>
        if item.Some? {
          CachedKeepsStore(v.store, v.requests[t].id, item.value);
        }
      case Handle(_, art) =>
        WantingStays(v.screen, art);
      case ImageLoad(u) =>
        LoadedStays(v.screen, u);
      case ImageError(u) =>
        FailedStays(v.screen, u);
      case Clear =>
        ClearedStays(v.screen);
      case _ =>
    }
  }

  /** The page after a run of events, in any interleaving the browser may produce. */
  function After(run: seq<Event>): (r: Option<View>)
    ensures r.Some? ==> Inv(r.value)
  {
    if run == [] then Some(INITIAL)
    else
      var ev := run[|run| - 1];
      match After(run[..|run| - 1])
      case None => None
      case Some(v) =>
        if !Possible(v, ev) then None
        else
          StepKeepsInv(v, ev);
          Some(Step(v, ev))
  }

  predicate AtMostOneOn(layers: seq<Layer>) {
    forall j, k | 0 <= j < k < |layers| :: !(layers[j].on && layers[k].on)
  }

  /** The URL wanted is on one lit layer; with none wanted, all layers are dark. */
  predicate ShowsWanted(s: Screen) {
    if s.current == None then forall k | 0 <= k < |s.layers| :: !s.layers[k].on
    else exists k :: 0 <= k < |s.layers| && s.layers[k] == Layer(s.current, true)
  }

  /** What the invariant says to someone looking at the page. */
  predicate LooksRight(v: View) {
    && Distinct(v.store.keys) && KeySet(v.store.keys) == v.store.cache.Keys && |v.store.keys| <= 64
    && AtMostOneOn(v.screen.layers)
    && (v.screen.images == multiset{} ==> ShowsWanted(v.screen))
  }

  lemma SettledScreenShowsWanted(s: Screen)
    requires ScreenOk(s)
    ensures AtMostOneOn(s.layers)
    ensures s.images == multiset{} ==> ShowsWanted(s)
  {
    if s.current.Some? && s.images == multiset{} {
      assert s.layers[1 - s.slot] == Layer(s.current, true);
    }
  }

  /** On every run the cache is sound, at most one layer is lit, and a settled screen shows exactly what is wanted. */
  lemma RunIsSound(run: seq<Event>)
    requires After(run).Some?
    ensures LooksRight(After(run).value)
  {
    SettledScreenShowsWanted(After(run).value.screen);
  }

  lemma LoadShowsWanted(s: Screen, url: Url)
    requires ScreenOk(s) && s.current == Some(url)
    ensures s.layers != [] && Loaded(s, url).current == Some(url) && ShowsWanted(Loaded(s, url))
    ensures url !in s.images ==> ShowsWanted(s)
    ensures Failed(s, url).current == None
  {
    assert Loaded(s, url).layers[s.slot] == Layer(Some(url), true);
    if url !in s.images {
      assert s.layers[1 - s.slot] == Layer(Some(url), true);
    }
  }

  /** Whatever came before, the wanted art is lit, or its image can still come and light it, or fail and clear. */
  lemma WantedArtCanLight(run: seq<Event>, url: Url)
    requires After(run).Some? && After(run).value.screen.current == Some(url)
    ensures var v := After(run).value;
            ShowsWanted(v.screen)
            || (&& Possible(v, ImageLoad(url)) && ShowsWanted(Step(v, ImageLoad(url)).screen)
                && Step(v, ImageLoad(url)).screen.current == Some(url)
                && Possible(v, ImageError(url)) && Step(v, ImageError(url)).screen.current == None)
  {
    LoadShowsWanted(After(run).value.screen, url);
  }

  /** Clearing is always possible, leaves nothing wanted and every layer dark, and keeps their pictures. */
  lemma ClearingDarkens(run: seq<Event>)
    requires After(run).Some?
    ensures var s, next := After(run).value.screen, After(run + [Clear]);
            && next.Some? && next.value.screen.current == None && |next.value.screen.layers| == |s.layers|
            && forall k | 0 <= k < |s.layers| :: next.value.screen.layers[k] == Layer(s.layers[k].image, false)
  {
    assert (run + [Clear])[..|run|] == run;
  }

  /** Layers can be made exactly once: two of them, dark and without a picture. */
  lemma LayersAreMadeOnce(run: seq<Event>)
    requires After(run).Some?
    ensures var s, next := After(run).value.screen, After(run + [MakeLayers]);
            && (next.Some? <==> s.layers == [])
            && (next.Some? ==> next.value.screen.layers == [Layer(None, false), Layer(None, false)])
  {
    assert (run + [MakeLayers])[..|run|] == run;
  }

  /** A fetch that was handled or failed is over: nothing about it can happen any more. */
  lemma AnswersAreUsedUp(v: View, token: nat, art: Option<Url>, ev: Event)
    requires Inv(v) && (ev == Reject(token) || ev == Handle(token, art)) && Possible(v, ev)
    ensures token !in Step(v, ev).requests
    ensures forall t | t != token :: (t in Step(v, ev).requests <==> t in v.requests)
                                     && (t in v.requests ==> Step(v, ev).requests[t] == v.requests[t])
    ensures forall t :: Possible(v, Reject(t)) <==> t in v.requests && v.requests[t].fetch.InFlight?
  {
  }

  // ----- the focused card, read from the log -----

  function LastFocus(run: seq<Event>): Option<Card> {
    if run == [] then None
    else if run[|run| - 1].Focus? then run[|run| - 1].card
    else LastFocus(run[..|run| - 1])
  }

  /** A change of focus that asks for the card's item. */
  predicate Asks(ev: Event, focus: Option<Card>) {
    ev.Focus? && ev.card.Some? && ev.tracked && ev.id.Some? && ev.card != focus
  }

  /** The card the log says was asked about last: the latest change of focus that made a request. */
  function LastAsked(run: seq<Event>): Option<Card> {
    if run == [] then None
    else
      var init, ev := run[..|run| - 1], run[|run| - 1];
      if Asks(ev, LastFocus(init)) then ev.card else LastAsked(init)
  }

  predicate Follows(v: View, focus: Option<Card>, asked: Option<Card>) {
    v.focused == focus && (v.token in v.requests ==> asked == Some(v.requests[v.token].card))
  }

  lemma StepFollows(v: View, ev: Event, focus: Option<Card>, asked: Option<Card>)
    requires Inv(v) && Possible(v, ev) && Follows(v, focus, asked)
    ensures Follows(Step(v, ev), if ev.Focus? then ev.card else focus, if Asks(ev, focus) then ev.card else asked)
  {
    assert v.token + 1 !in v.requests;
  }

  lemma {:induction false} RunFollowsLog(run: seq<Event>)
    requires After(run).Some?
    ensures Follows(After(run).value, LastFocus(run), LastAsked(run))
  {
    if run != [] {
      var init, ev := run[..|run| - 1], run[|run| - 1];
      RunFollowsLog(init);
      StepFollows(After(init).value, ev, LastFocus(init), LastAsked(init));
    }
  }

  lemma HandledArtIsWanted(v: View, token: nat, art: Option<Url>)
    requires HasFetch(v, token, false)
    requires Handled(v, token, art).screen.current != v.screen.current
    ensures Handled(v, token, art).screen.current == art
    ensures token == v.token && v.focused == Some(v.requests[token].card)
  {
  }

  /**
   * A fetched item changes what is wanted exactly when it was found, its art is
   * another one, it was asked for last, and its card is the one focused last,
   * which is then also the card asked about last; and what is wanted then is
   * that item's art.
   */
  lemma ArtFollowsFocus(run: seq<Event>, token: nat, art: Option<Url>)
    requires After(run).Some? && HasFetch(After(run).value, token, false)
    ensures var v, w := After(run).value, Handled(After(run).value, token, art);
            var card := v.requests[token].card;
            && After(run + [Handle(token, art)]) == Some(w)
            && (w.screen.current != v.screen.current <==>
                  && v.screen.layers != [] && art != v.screen.current
                  && v.requests[token].fetch.item.Some? && token == v.token && LastFocus(run) == Some(card))
            && (w.screen.current != v.screen.current ==> w.screen.current == art && LastAsked(run) == Some(card))
  {
    assert (run + [Handle(token, art)])[..|run|] == run;
    RunFollowsLog(run);
    var v := After(run).value;
    if Handled(v, token, art).screen.current != v.screen.current {
      HandledArtIsWanted(v, token, art);
    }
  }

  // ----- the wanted thing happens -----

  /**
   * A change of focus to a tracked card with an id makes a request for exactly
   * that card and id under a fresh token, answered at once from the cache, or
   * on its way, or not made for want of both. It touches nothing else.
   */
  lemma FocusAsks(v: View, card: Card, id: Id, api: bool)
    requires Inv(v) && v.focused != Some(card)
    ensures var w := Focused(v, Some(card), true, Some(id), api);
            && w.focused == Some(card) && w.token == v.token + 1 && w.store == v.store && w.screen == v.screen
            && (w.token in w.requests <==> id in v.store.cache || api)
            && (id in v.store.cache ==>
                  w.requests[w.token] == Request(card, id, Resolved(Some(v.store.cache[id]))))
            && (id !in v.store.cache && api ==> w.requests[w.token] == Request(card, id, InFlight))
            && forall t | t != w.token :: (t in w.requests <==> t in v.requests)
                                          && (t in v.requests ==> w.requests[t] == v.requests[t])
  {
    assert v.token + 1 !in v.requests;
  }

  /** Any other call leaves everything but the focus as it was; the card already focused changes nothing. */
  lemma FocusKeeps(v: View, card: Option<Card>, tracked: bool, id: Option<Id>, api: bool)
    requires card == v.focused || card == None || !tracked || id == None
    ensures Focused(v, card, tracked, id, api) == v.(focused := card)
  {
  }

  /** An item that arrives is in the cache from then on, as its id's. */
  lemma ArrivalIsCached(v: View, token: nat, item: Item)
    requires Inv(v) && HasFetch(v, token, true)
    ensures var w, id := Arrived(v, token, Some(item)), v.requests[token].id;
            && id in w.store.cache && w.store.cache[id] == item
            && w.requests[token] == v.requests[token].(fetch := Resolved(Some(item)))
  {
    CachedKeepsStore(v.store, v.requests[token].id, item);
  }

  /** The card asked about under this token still has the focus; `got` says its item has come. */
  predicate Awaiting(v: View, token: nat, card: Card, got: bool) {
    && v.token == token && v.focused == Some(card) && v.screen.layers != []
    && (token in v.requests ==>
          && v.requests[token].card == card
          && (got ==> HasFetch(v, token, false) && v.requests[token].fetch.item.Some?))
  }

  predicate Brings(ev: Event, token: nat) {
    ev.Arrive? && ev.token == token && ev.item.Some?
  }

  lemma StepKeepsAwaiting(v: View, ev: Event, token: nat, card: Card, got: bool)
    requires Inv(v) && Possible(v, ev) && !ev.Focus? && Awaiting(v, token, card, got)
    ensures Awaiting(Step(v, ev), token, card, got || Brings(ev, token))
  {
  }

  predicate Brought(more: seq<Event>, token: nat) {
    more != [] && (Brings(more[0], token) || Brought(more[1..], token))
  }

  /** What more events make of a page. */
  function Onward(v: View, more: seq<Event>): (w: Option<View>)
    requires Inv(v)
    ensures w.Some? ==> Inv(w.value)
    decreases |more|
  {
    if more == [] then Some(v)
    else if !Possible(v, more[0]) then None
    else
      StepKeepsInv(v, more[0]);
      Onward(Step(v, more[0]), more[1..])
  }

  lemma {:induction false} OnwardSnoc(v: View, more: seq<Event>, ev: Event)
    requires Inv(v)
    ensures Onward(v, more + [ev])
            == match Onward(v, more)
               case None => None
               case Some(w) => if Possible(w, ev) then Some(Step(w, ev)) else None
    decreases |more|
  {
    if more == [] {
      assert [] + [ev] == [ev] && [ev][1..] == [];
      if Possible(v, ev) {
        StepKeepsInv(v, ev);
      }
    } else {
      assert (more + [ev])[1..] == more[1..] + [ev] && (more + [ev])[0] == more[0];
      if Possible(v, more[0]) {
        StepKeepsInv(v, more[0]);
        OnwardSnoc(Step(v, more[0]), more[1..], ev);
      }
    }
  }

  /** A run is what its events make of a new page. */
  lemma {:induction false} AfterIsOnward(run: seq<Event>)
    ensures After(run) == Onward(INITIAL, run)
  {
    if run != [] {
      var init, ev := run[..|run| - 1], run[|run| - 1];
      AfterIsOnward(init);
      OnwardSnoc(INITIAL, init, ev);
      assert init + [ev] == run;
    }
  }

  lemma {:induction false} OnwardKeepsAwaiting(v: View, more: seq<Event>, token: nat, card: Card, got: bool)
    requires Inv(v) && Awaiting(v, token, card, got) && Onward(v, more).Some?
    requires forall k | 0 <= k < |more| :: !more[k].Focus?
    ensures Awaiting(Onward(v, more).value, token, card, got || Brought(more, token))
    decreases |more|
  {
    if more != [] {
      StepKeepsInv(v, more[0]);
      StepKeepsAwaiting(v, more[0], token, card, got);
      OnwardKeepsAwaiting(Step(v, more[0]), more[1..], token, card, got || Brings(more[0], token));
    }
  }

  lemma AwaitedArtIsWanted(v: View, token: nat, card: Card, art: Option<Url>)
    requires Awaiting(v, token, card, true) && HasFetch(v, token, false)
    ensures Handled(v, token, art).screen.current == art
  {
  }

  /** The page after a card got the focus and asked for its item. */
  function Asking(v: View, card: Card, id: Id, api: bool): (w: View)
    requires Inv(v)
    ensures Inv(w)
  {
    StepKeepsInv(v, Focus(Some(card), true, Some(id), api));
    Focused(v, Some(card), true, Some(id), api)
  }

  /**
   * Whatever else interleaves: a card that gets the focus, whose item was cached
   * or arrives, and that is not replaced by another before that item is handled,
   * gets its art wanted.
   */
  lemma FocusedCardGetsItsArt(v: View, card: Card, id: Id, api: bool, more: seq<Event>, art: Option<Url>)
    requires Inv(v) && v.focused != Some(card) && v.screen.layers != []
    requires forall k | 0 <= k < |more| :: !more[k].Focus?
    requires id in v.store.cache || Brought(more, v.token + 1)
    requires var w := Onward(Asking(v, card, id, api), more); w.Some? && HasFetch(w.value, v.token + 1, false)
    ensures Handled(Onward(Asking(v, card, id, api), more).value, v.token + 1, art).screen.current == art
  {
    var asking := Asking(v, card, id, api);
    FocusAsks(v, card, id, api);
    OnwardKeepsAwaiting(asking, more, v.token + 1, card, id in v.store.cache);
    AwaitedArtIsWanted(Onward(asking, more).value, v.token + 1, card, art);
  }

  /**
   * And it can happen: an uncached card that gets the focus has its item on the
   * way, which can arrive, stay cached, and bring its art.
   */
  lemma FocusCanGetArt(v: View, card: Card, id: Id, item: Item, art: Option<Url>)
    requires Inv(v) && v.focused != Some(card) && v.screen.layers != [] && id !in v.store.cache
    ensures var asking := Asking(v, card, id, true);
            HasFetch(asking, v.token + 1, true)
            && var brought := Arrived(asking, v.token + 1, Some(item));
            HasFetch(brought, v.token + 1, false) && id in brought.store.cache && brought.store.cache[id] == item
            && Handled(brought, v.token + 1, art).screen.current == art
  {
    var asking := Asking(v, card, id, true);
    FocusAsks(v, card, id, true);
    ArrivalIsCached(asking, v.token + 1, item);
    AwaitedArtIsWanted(Arrived(asking, v.token + 1, Some(item)), v.token + 1, card, art);
  }

  /** Layer k changed its picture, or went from dark to lit. */
  predicate Brighter(s: Screen, t: Screen, k: nat)
    requires k < |s.layers| == |t.layers|
  {
    t.layers[k].image != s.layers[k].image || (t.layers[k].on && !s.layers[k].on)
  }

  lemma LoadLightsTheSlot(s: Screen, url: Url, k: nat)
    requires ScreenOk(s) && k < |s.layers|
    ensures var t := Loaded(s, url);
            |t.layers| == |s.layers|
            && (Brighter(s, t, k) <==> s.current == Some(url) && k == s.slot)
            && (Brighter(s, t, k) ==> t.layers[k] == Layer(Some(url), true))
  {
  }

  lemma NothingElseLights(s: Screen, url: Option<Url>, lost: Url, k: nat)
    requires k < |s.layers|
    ensures |Cleared(s).layers| == |Wanting(s, url).layers| == |Failed(s, lost).layers| == |s.layers|
    ensures !Brighter(s, Cleared(s), k) && !Brighter(s, Wanting(s, url), k) && !Brighter(s, Failed(s, lost), k)
  {
  }

  /** Pictures change, and layers light up, only when an image that is still wanted arrives. */
  lemma OnlyWantedLoadsLight(v: View, ev: Event, k: nat)
    requires Inv(v) && Possible(v, ev) && !ev.MakeLayers? && k < |v.screen.layers|
    ensures var s, t := v.screen, Step(v, ev).screen;
            |t.layers| == |s.layers|
            && (Brighter(s, t, k) <==>
                  ev.ImageLoad? && s.current == Some(ev.url) && k == s.slot)
            && (Brighter(s, t, k) ==> t.layers[k] == Layer(Some(ev.url), true))
  {
    match ev {
      case ImageLoad(u) => LoadLightsTheSlot(v.screen, u, k);
      case ImageError(u) => NothingElseLights(v.screen, None, u, k);
      case Handle(_, art) => NothingElseLights(v.screen, art, 0, k);
      case Clear => NothingElseLights(v.screen, None, 0, k);
      case _ =>
    }
  }

  lemma {:induction false} PrefixRuns(run: seq<Event>, k: nat)
    requires After(run).Some? && k <= |run|
    ensures After(run[..k]).Some?
    decreases |run|
  {
    if k == |run| {
      assert run[..k] == run;
    } else {
      PrefixRuns(run[..|run| - 1], k);
      assert run[..|run| - 1][..k] == run[..k];
    }
  }

  // ----- the page script -----

  /** The script's variables; layers and images stand for the two elements and the browser's loads. */
  class Page {
    var focusedCard: Option<Card>
    var requestToken: nat
    var itemCache: map<Id, Item>
    var itemCacheKeys: seq<Id>
    var backdropLayers: seq<Layer>
    var backdropSlot: nat
    var currentBackdropUrl: Option<Url>
    var backdropShown: bool
    var images: multiset<Url>
    var requests: map<nat, Request>

    ghost function StoreNow(): Store
      reads this
    {
      Store(itemCache, itemCacheKeys)
    }

    ghost function ScreenNow(): Screen
      reads this
    {
      Screen(backdropLayers, backdropSlot, currentBackdropUrl, backdropShown, images)
    }

    ghost function ViewNow(): View
      reads this
    {
      View(focusedCard, requestToken, StoreNow(), ScreenNow(), requests)
    }

    constructor ()
      ensures ViewNow() == INITIAL
    {
      focusedCard, requestToken, itemCache, itemCacheKeys := None, 0, map[], [];
      backdropLayers, backdropSlot, currentBackdropUrl, backdropShown := [], 0, None, false;
      images, requests := multiset{}, map[];
    }

    method EnsureLayers()
      modifies this`backdropLayers
      ensures ScreenNow() == if old(backdropLayers) == []
                             then old(ScreenNow()).(layers := [Layer(None, false), Layer(None, false)])
                             else old(ScreenNow())
    {
      if backdropLayers != [] {
        return;
      }
      backdropLayers := [Layer(None, false), Layer(None, false)];
    }

    method CacheItem(id: Id, item: Item)
      modifies this`itemCache, this`itemCacheKeys
      ensures StoreNow() == Cached(old(StoreNow()), id, item)
    {
      if id !in itemCache {
        itemCacheKeys := itemCacheKeys + [id];
        ghost var pushed := StoreNow();
        while |itemCacheKeys| > ITEM_CACHE_MAX
          invariant Evicted(StoreNow()) == Evicted(pushed)
        {
          itemCache := itemCache - {itemCacheKeys[0]};
          itemCacheKeys := itemCacheKeys[1..];
        }
      }
      itemCache := itemCache[id := item];
    }

    method ClearBackdrop()
      modifies this`currentBackdropUrl, this`backdropLayers, this`backdropShown
      ensures ScreenNow() == Cleared(old(ScreenNow()))
    {
      currentBackdropUrl := None;
      var i := 0;
      while i < |backdropLayers|
        modifies this`backdropLayers
        invariant 0 <= i <= |backdropLayers| == old(|backdropLayers|)
        invariant forall k | 0 <= k < |backdropLayers| ::
                    backdropLayers[k] == if k < i then old(backdropLayers)[k].(on := false) else old(backdropLayers)[k]
      {
        backdropLayers := backdropLayers[i := backdropLayers[i].(on := false)];
        i := i + 1;
      }
      assert backdropLayers == AllOff(old(backdropLayers));
      backdropShown := false;
    }

    method SetBackdrop(url: Option<Url>)
      modifies this`currentBackdropUrl, this`backdropLayers, this`backdropShown, this`images
      ensures ScreenNow() == Wanting(old(ScreenNow()), url)
    {
      if backdropLayers == [] || url == currentBackdropUrl {
        return;
      }
      currentBackdropUrl := url;
      if url == None {
        ClearBackdrop();
        return;
      }
      images := images + multiset{url.value};
    }

    method ImageLoaded(url: Url)
      requires ScreenOk(ScreenNow())
      modifies this`backdropLayers, this`backdropSlot, this`backdropShown, this`images
      ensures ScreenNow() == Loaded(old(ScreenNow()), url)
    {
      images := images - multiset{url};
      if currentBackdropUrl != Some(url) {
        return;
      }
      backdropLayers := backdropLayers[backdropSlot := Layer(Some(url), true)];
      backdropLayers := backdropLayers[1 - backdropSlot := backdropLayers[1 - backdropSlot].(on := false)];
      backdropSlot := 1 - backdropSlot;
      backdropShown := true;
    }

    method ImageFailed(url: Url)
      modifies this`currentBackdropUrl, this`backdropLayers, this`backdropShown, this`images
      ensures ScreenNow() == Failed(old(ScreenNow()), url)
    {
      images := images - multiset{url};
      if currentBackdropUrl == Some(url) {
        ClearBackdrop();
      }
    }

    method SetFocusedCard(card: Option<Card>, tracked: bool, id: Option<Id>, api: bool)
      modifies this`focusedCard, this`requestToken, this`requests
      ensures ViewNow() == Focused(old(ViewNow()), card, tracked, id, api)
    {
      if card == focusedCard {
        return;
      }
      focusedCard := card;
      if card == None || !tracked || id == None {
        return;
      }
      requestToken := requestToken + 1;
      if id.value in itemCache {
        requests := requests[requestToken := Request(card.value, id.value, Resolved(Some(itemCache[id.value])))];
      } else if api {
        requests := requests[requestToken := Request(card.value, id.value, InFlight)];
      }
    }

    method ItemArrived(token: nat, item: Option<Item>)
      requires HasFetch(ViewNow(), token, true)
      modifies this`itemCache, this`itemCacheKeys, this`requests
      ensures ViewNow() == Arrived(old(ViewNow()), token, item)
    {
      if item.Some? {
        CacheItem(requests[token].id, item.value);
      }
      requests := requests[token := requests[token].(fetch := Resolved(item))];
    }

    /** A failed fetch is only logged. */
    method ItemRejected(token: nat)
      requires HasFetch(ViewNow(), token, true)
      modifies this`requests
      ensures ViewNow() == old(ViewNow()).(requests := old(requests) - {token})
    {
      requests := requests - {token};
    }

    method ItemReady(token: nat, art: Option<Url>)
      requires HasFetch(ViewNow(), token, false)
      modifies this
      ensures ViewNow() == Handled(old(ViewNow()), token, art)
    {
      var r := requests[token];
      requests := requests - {token};
      if token != requestToken || r.fetch.item == None {
        return;
      }
      if Some(r.card) != focusedCard {
        return;
      }
      SetBackdrop(art);
    }

    /** Every event of a run is one call on the page, and together the calls do what the run says. */
    method Handle(ev: Event)
      requires Inv(ViewNow()) && Possible(ViewNow(), ev)
      modifies this
      ensures ViewNow() == Step(old(ViewNow()), ev) && Inv(ViewNow())
    {
      ghost var before := ViewNow();
      match ev {
        case Focus(card, tracked, id, api) => SetFocusedCard(card, tracked, id, api);
        case Arrive(token, item) => ItemArrived(token, item);
        case Reject(token) => ItemRejected(token);
        case Handle(token, art) => ItemReady(token, art);
        case ImageLoad(url) => ImageLoaded(url);
        case ImageError(url) => ImageFailed(url);
        case Clear => ClearBackdrop();
        case MakeLayers => EnsureLayers();
      }
      StepKeepsInv(before, ev);
    }
  }

  /** Any run of events on a new page ends where the run says. */
  method Drive(run: seq<Event>) returns (p: Page)
    requires After(run).Some?
    ensures fresh(p) && p.ViewNow() == After(run).value
  {
    p := new Page();
    assert run[..0] == [];
    for k := 0 to |run|
      invariant fresh(p) && After(run[..k]) == Some(p.ViewNow())
    {
      PrefixRuns(run, k + 1);
      assert run[..k + 1][..k] == run[..k];
      p.Handle(run[k]);
    }
    assert run[..|run|] == run;
  }
}
