/**
 * The per-document distributor and the registry of distributors.
 *
 * The document store is a map from document URL to document; each handler's
 * `repo.change` callback is one atomic assignment to that map. The discovery
 * session keeps one listener multiset per event. A subscription records what
 * was published on it and the callbacks registered for its disconnect.
 */
module Distribution {
  import opened Wrappers
  import opened ArraySplice
  import opened Annotations
  import opened Routes

  /** The document store. */
  class Repo {
    var docs: map<string, Document>

    constructor (docs: map<string, Document>)
      ensures this.docs == docs
    {
      this.docs := docs;
    }

    /** `repo.watch(docUrl, cb)`: an open handle whose callback publishes to `subscriber`. */
    method Watch(docUrl: string, subscriber: Subscription) returns (h: WatchHandle)
      ensures fresh(h) && h.open && h.docUrl == docUrl && h.subscriber == subscriber
    {
      h := new WatchHandle(docUrl, subscriber);
    }
  }

  /** A peer's live subscription on a `sub` route. */
  class Subscription {
    var published: seq<Payload>
    var onDisconnect: seq<DisconnectHandler>

    constructor ()
      ensures published == [] && onDisconnect == []
    {
      published, onDisconnect := [], [];
    }

    /** `subscription.emit('pub', p)`. */
    method Emit(p: Payload)
      modifies this
      ensures published == old(published) + [p] && onDisconnect == old(onDisconnect)
    {
      published := published + [p];
    }

    /** `subscription.on('disconnect', h)`. */
    method OnDisconnect(h: DisconnectHandler)
      modifies this
      ensures onDisconnect == old(onDisconnect) + [h] && published == old(published)
    {
      onDisconnect := onDisconnect + [h];
    }
  }

  /** A store watch opened for the all-annotations feed. */
  class WatchHandle {
    const docUrl: string
    const subscriber: Subscription
    var open: bool

    constructor (docUrl: string, subscriber: Subscription)
      ensures this.docUrl == docUrl && this.subscriber == subscriber && open
    {
      this.docUrl, this.subscriber, open := docUrl, subscriber, true;
    }

    /** `handle.close()`: the store stops calling back. */
    method Close()
      modifies this
      ensures !open
    {
      open := false;
    }

    /**
     * The store reports a change of the document: an open watch publishes the raw
     * (not enriched) annotation array, or an empty one when it is not an array.
     */
    method OnChange(doc: Document)
      modifies subscriber
      ensures subscriber.onDisconnect == old(subscriber.onDisconnect)
      ensures subscriber.published == old(subscriber.published) +
                (if open then [AnnotationList(AnnotationsOrEmpty(doc))] else [])
    {
      if open {
        subscriber.Emit(AnnotationList(AnnotationsOrEmpty(doc)));
      }
    }
  }

  datatype Event = Announce | Unannounce

  /** The discovery session of one document. */
  class Discovery {
    const target: string
    const docUrl: string
    var announceListeners: multiset<AnnouncementListener>
    var unannounceListeners: multiset<AnnouncementListener>
    var uniqueAnnouncements: set<PeerId>
    var destroyed: bool

    constructor (target: string, docUrl: string)
      ensures this.target == target && this.docUrl == docUrl
      ensures announceListeners == multiset{} && unannounceListeners == multiset{} && !destroyed
    {
      this.target, this.docUrl := target, docUrl;
      announceListeners, unannounceListeners := multiset{}, multiset{};
      uniqueAnnouncements := {};
      destroyed := false;
    }

    /** `discovery.on(e, l)`: one more occurrence of `l` among the listeners of `e`. */
    method On(e: Event, l: AnnouncementListener)
      modifies this
      ensures announceListeners == old(announceListeners) + (if e == Announce then multiset{l} else multiset{})
      ensures unannounceListeners == old(unannounceListeners) + (if e == Unannounce then multiset{l} else multiset{})
      ensures uniqueAnnouncements == old(uniqueAnnouncements) && destroyed == old(destroyed)
    {
      if e == Announce {
        announceListeners := announceListeners + multiset{l};
      } else {
        unannounceListeners := unannounceListeners + multiset{l};
      }
    }

    /** `discovery.removeListener(e, l)`: one occurrence of `l` fewer, if there was one. */
    method RemoveListener(e: Event, l: AnnouncementListener)
      modifies this
      ensures announceListeners == old(announceListeners) - (if e == Announce then multiset{l} else multiset{})
      ensures unannounceListeners == old(unannounceListeners) - (if e == Unannounce then multiset{l} else multiset{})
      ensures uniqueAnnouncements == old(uniqueAnnouncements) && destroyed == old(destroyed)
    {
      if e == Announce {
        announceListeners := announceListeners - multiset{l};
      } else {
        unannounceListeners := unannounceListeners - multiset{l};
      }
    }

    /** `discovery.destroy()`. */
    method Destroy()
      modifies this
      ensures destroyed
      ensures announceListeners == old(announceListeners) && unannounceListeners == old(unannounceListeners)
      ensures uniqueAnnouncements == old(uniqueAnnouncements)
    {
      destroyed := true;
    }
  }

  /** The `handleAnnouncementChange` closure of one related-peers subscription. */
  class AnnouncementListener {
    const discovery: Discovery
    const subscriber: Subscription

    constructor (discovery: Discovery, subscriber: Subscription)
      ensures this.discovery == discovery && this.subscriber == subscriber
    {
      this.discovery, this.subscriber := discovery, subscriber;
    }

    /** On announce or unannounce: publish the current unique announcements. */
    method Run()
      modifies subscriber
      ensures subscriber.published == old(subscriber.published) + [Peers(discovery.uniqueAnnouncements)]
      ensures subscriber.onDisconnect == old(subscriber.onDisconnect)
    {
      subscriber.Emit(Peers(discovery.uniqueAnnouncements));
    }
  }

  /** The callbacks the two feeds register for a subscription's disconnect. */
  datatype DisconnectHandler =
    | CloseWatch(handle: WatchHandle)
    | RemoveAnnouncementListeners(listener: AnnouncementListener)

  /** The objects a disconnect callback changes. */
  function DisconnectFrame(h: DisconnectHandler): set<object>
  {
    match h
    case CloseWatch(w) => {w}
    case RemoveAnnouncementListeners(l) => {l.discovery}
  }

  /** The transport runs one disconnect callback. */
  method RunDisconnect(h: DisconnectHandler)
    modifies DisconnectFrame(h)
    ensures h.CloseWatch? ==> !h.handle.open
    ensures h.RemoveAnnouncementListeners? ==>
              var d := h.listener.discovery;
              && d.announceListeners == old(d.announceListeners) - multiset{h.listener}
              && d.unannounceListeners == old(d.unannounceListeners) - multiset{h.listener}
              && d.uniqueAnnouncements == old(d.uniqueAnnouncements)
              && d.destroyed == old(d.destroyed)
  {
    match h
    case CloseWatch(w) =>
      w.Close();
    case RemoveAnnouncementListeners(l) =>
      l.discovery.RemoveListener(Announce, l);
      l.discovery.RemoveListener(Unannounce, l);
  }

  /** The transport session's name for a document. */
  function ChannelName(docUrl: string): string
  {
    "annotations-" + docUrl
  }

  /** Different documents get different channels. */
  lemma ChannelNameInjective(a: string, b: string)
    requires ChannelName(a) == ChannelName(b)
    ensures a == b
  {
    assert a == ChannelName(a)[12..];
    assert b == ChannelName(b)[12..];
  }

  /** The resources a distributor releases, in the order it releases them. */
  datatype Resource = DiscoverySession | TransportSession

  /** Why a mutating handler rejects instead of answering. */
  datatype HandlerError =
    /** `state.annotations.findIndex` on a document whose annotations are not an array. */
    | AnnotationsNotAnArray

  /** `resolve(v)` on a promise whose settled value so far is `p`. */
  function Resolve(p: Option<bool>, v: bool): (q: Option<bool>)
    ensures q.Some?
  {
    if p.Some? then p else Some(v)
  }

  /** A promise settles once: a second `resolve` has no effect. */
  lemma ResolveSettlesOnce(p: Option<bool>, a: bool, b: bool)
    ensures Resolve(Resolve(p, a), b) == Resolve(p, a)
    ensures Resolve(Resolve(None, a), b) == Some(a)
  {
  }

  /** The request/response and publish/subscribe service of one document. */
  class Distributor {
    const repo: Repo
    const target: string
    const docUrl: string
    const channel: string
    const routes: seq<Route>
    const discovery: Discovery
    var swarmOpen: bool
    var released: seq<Resource>

    /** The document this distributor serves is in the store. */
    predicate Valid()
      reads this, repo
    {
      docUrl in repo.docs
    }

    /** A distributor as its constructor leaves it: both sessions open, no listeners. */
    predicate Initial()
      reads this, discovery
    {
      && swarmOpen && released == []
      && !discovery.destroyed
      && discovery.announceListeners == multiset{}
      && discovery.unannounceListeners == multiset{}
    }

    constructor (repo: Repo, target: string, docUrl: string)
      ensures this.repo == repo && this.target == target && this.docUrl == docUrl
      ensures channel == ChannelName(docUrl) && routes == RouteTable
      ensures fresh(discovery) && discovery.target == target && discovery.docUrl == docUrl
      ensures Initial()
    {
      this.repo, this.target, this.docUrl := repo, target, docUrl;
      channel := ChannelName(docUrl);
      routes := RouteTable;
      discovery := new Discovery(target, docUrl);
      swarmOpen := true;
      released := [];
    }

    /** GET /annotations.jsonld */
    method HandleGetAllAnnotations() returns (r: Response)
      requires Valid()
      ensures r == ListResponse(repo.docs[docUrl])
    {
      var doc := repo.docs[docUrl];
      var annotations := if doc.annotations.Some? then doc.annotations.value else [];
      r := Response(OK, Some(AnnotationList(EnrichAll(annotations))));
    }

    /** GET /annotations/:id.jsonld */
    method HandleGetAnnotation(id: string) returns (r: Response)
      requires Valid()
      ensures r == GetResponse(repo.docs[docUrl], docUrl, id)
    {
      var doc := repo.docs[docUrl];
      if doc.annotations.None? {
        return Response(NOT_FOUND, None);
      }
      var s := doc.annotations.value;
      var i := FindIndex(s, AnnotationUrl(docUrl, id));
      if i < 0 {
        return Response(NOT_FOUND, None);
      }
      r := Response(OK, Some(OneAnnotation(Enrich(s[i]))));
    }

    /** GET /related.json */
    method HandleRelated() returns (r: Response)
      ensures r == Response(OK, Some(Peers(discovery.uniqueAnnouncements)))
    {
      r := Response(OK, Some(Peers(discovery.uniqueAnnouncements)));
    }

    /**
     * POST /annotations/ with payload `data`; `token` stands for the uuid the
     * handler draws. One atomic change appends the new annotation.
     */
    method HandleCreateAnnotation(token: string, data: Annotation) returns (r: Response)
      requires Valid()
      modifies repo
      ensures Valid()
      ensures repo.docs == old(repo.docs)[docUrl := CreateStep(old(repo.docs[docUrl]), NewAnnotation(docUrl, token, data))]
      ensures r == Response(CREATED, Some(OneAnnotation(NewAnnotation(docUrl, token, data))))
    {
      var id := AnnotationUrl(docUrl, token);
      var annotation := data["id" := Str(id)]["annotation_id" := Str(token)];
      var state := repo.docs[docUrl];
      var annotations := state.annotations;
      if annotations.None? {
        annotations := Some([]);
      }
      annotations := Some(annotations.value + [annotation]);
      repo.docs := repo.docs[docUrl := state.(annotations := annotations)];
      r := Response(CREATED, Some(OneAnnotation(annotation)));
    }

    /**
     * PUT /annotations/:id.jsonld, as written: a miss resolves `false` and then
     * still splices at -1; the code is the first resolution; `data` is the whole
     * document read after the change.
     */
    method HandleUpdateAnnotation(id: string, data: Annotation) returns (r: Result<Response, HandlerError>)
      requires Valid()
      modifies repo
      ensures Valid()
      ensures old(repo.docs[docUrl]).annotations.None? ==>
                r == Failure(AnnotationsNotAnArray) && repo.docs == old(repo.docs)
      ensures old(repo.docs[docUrl]).annotations.Some? ==>
                var s := old(repo.docs[docUrl]).annotations.value;
                var url := AnnotationUrl(docUrl, id);
                && repo.docs == old(repo.docs)[docUrl := old(repo.docs[docUrl]).(annotations := Some(UpdatedAnnotations(s, url, data)))]
                && r == Success(Response(if Absent(s, url) then NOT_FOUND else UPDATED, Some(WholeDocument(repo.docs[docUrl]))))
    {
      var state := repo.docs[docUrl];
      if state.annotations.None? {
        return Failure(AnnotationsNotAnArray);
      }
      var s := state.annotations.value;
      var index := FindIndex(s, AnnotationUrl(docUrl, id));
      var found: Option<bool> := None;
      if index < 0 {
        found := Resolve(found, false);
      }
      repo.docs := repo.docs[docUrl := state.(annotations := Some(Splice(s, index, 1, [data])))];
      found := Resolve(found, true);
      r := Success(Response(if found.value then UPDATED else NOT_FOUND, Some(WholeDocument(repo.docs[docUrl]))));
    }

    /** DELETE /annotations/:id.jsonld, as written: a miss still splices at -1. */
    method HandleDeleteAnnotation(id: string) returns (r: Result<Response, HandlerError>)
      requires Valid()
      modifies repo
      ensures Valid()
      ensures old(repo.docs[docUrl]).annotations.None? ==>
                r == Failure(AnnotationsNotAnArray) && repo.docs == old(repo.docs)
      ensures old(repo.docs[docUrl]).annotations.Some? ==>
                var s := old(repo.docs[docUrl]).annotations.value;
                var url := AnnotationUrl(docUrl, id);
                && repo.docs == old(repo.docs)[docUrl := old(repo.docs[docUrl]).(annotations := Some(DeletedAnnotations(s, url)))]
                && r == Success(Response(if Absent(s, url) then NOT_FOUND else DELETED, None))
    {
      var state := repo.docs[docUrl];
      if state.annotations.None? {
        return Failure(AnnotationsNotAnArray);
      }
      var s := state.annotations.value;
      var index := FindIndex(s, AnnotationUrl(docUrl, id));
      var found: Option<bool> := None;
      if index < 0 {
        found := Resolve(found, false);
      }
      repo.docs := repo.docs[docUrl := state.(annotations := Some(Splice(s, index, 1, [])))];
      found := Resolve(found, true);
      r := Success(Response(if found.value then DELETED else NOT_FOUND, None));
    }

    /** SUB /annotations.jsonld: open a store watch, close it on disconnect. */
    method HandleSubAllAnnotations(sub: Subscription) returns (r: Response)
      modifies sub
      ensures r == Response(PUB_INIT, None)
      ensures sub.published == old(sub.published)
      ensures |sub.onDisconnect| == |old(sub.onDisconnect)| + 1
      ensures sub.onDisconnect[..|old(sub.onDisconnect)|] == old(sub.onDisconnect)
      ensures var h := sub.onDisconnect[|old(sub.onDisconnect)|];
              && h.CloseWatch? && fresh(h.handle) && h.handle.open
              && h.handle.docUrl == docUrl && h.handle.subscriber == sub
    {
      var handle := repo.Watch(docUrl, sub);
      sub.OnDisconnect(CloseWatch(handle));
      r := Response(PUB_INIT, None);
    }

    /**
     * SUB /related.json: one fresh listener on both discovery events, removed
     * from both on disconnect.
     */
    method HandleSubRelated(sub: Subscription) returns (r: Response)
      modifies sub, discovery
      ensures r == Response(PUB_INIT, None)
      ensures sub.published == old(sub.published)
      ensures |sub.onDisconnect| == |old(sub.onDisconnect)| + 1
      ensures sub.onDisconnect[..|old(sub.onDisconnect)|] == old(sub.onDisconnect)
      ensures var h := sub.onDisconnect[|old(sub.onDisconnect)|];
              && h.RemoveAnnouncementListeners? && fresh(h.listener)
              && h.listener.discovery == discovery && h.listener.subscriber == sub
              && discovery.announceListeners == old(discovery.announceListeners) + multiset{h.listener}
              && discovery.unannounceListeners == old(discovery.unannounceListeners) + multiset{h.listener}
      ensures discovery.uniqueAnnouncements == old(discovery.uniqueAnnouncements)
      ensures discovery.destroyed == old(discovery.destroyed)
    {
      var handleAnnouncementChange := new AnnouncementListener(discovery, sub);
      discovery.On(Announce, handleAnnouncementChange);
      discovery.On(Unannounce, handleAnnouncementChange);
      sub.OnDisconnect(RemoveAnnouncementListeners(handleAnnouncementChange));
      r := Response(PUB_INIT, None);
    }

    /** Subscribing to related peers and then disconnecting leaves no listener behind. */
    method SubscribeRelatedThenDisconnect(sub: Subscription)
      modifies sub, discovery
      ensures discovery.announceListeners == old(discovery.announceListeners)
      ensures discovery.unannounceListeners == old(discovery.unannounceListeners)
      ensures sub.published == old(sub.published)
    {
      var r := HandleSubRelated(sub);
      RunDisconnect(sub.onDisconnect[|sub.onDisconnect| - 1]);
    }

    /** Subscribe to related peers, then one announce: exactly one publish of the current peers. */
    method SubscribeRelatedThenAnnounce(sub: Subscription)
      modifies sub, discovery
      ensures sub.published == old(sub.published) + [Peers(discovery.uniqueAnnouncements)]
      ensures discovery.uniqueAnnouncements == old(discovery.uniqueAnnouncements)
    {
      var r := HandleSubRelated(sub);
      var h := sub.onDisconnect[|sub.onDisconnect| - 1];
      h.listener.Run();
    }

    /** Subscribe, then create: exactly one publish, carrying the list after the create. */
    method SubscribeThenCreate(sub: Subscription, token: string, data: Annotation)
      requires Valid()
      modifies sub, repo
      ensures sub.published == old(sub.published) +
                [AnnotationList(AnnotationsOrEmpty(old(repo.docs[docUrl])) + [NewAnnotation(docUrl, token, data)])]
    {
      var r := HandleSubAllAnnotations(sub);
      var h := sub.onDisconnect[|sub.onDisconnect| - 1];
      var created := HandleCreateAnnotation(token, data);
      h.handle.OnChange(repo.docs[docUrl]);
    }

    /** Subscribe, disconnect, then create: nothing is published and the watch is closed. */
    method SubscribeDisconnectThenCreate(sub: Subscription, token: string, data: Annotation)
      requires Valid()
      modifies sub, repo
      ensures sub.published == old(sub.published)
      ensures |sub.onDisconnect| == |old(sub.onDisconnect)| + 1
      ensures var h := sub.onDisconnect[|old(sub.onDisconnect)|];
              h.CloseWatch? && !h.handle.open
    {
      var r := HandleSubAllAnnotations(sub);
      var h := sub.onDisconnect[|sub.onDisconnect| - 1];
      RunDisconnect(h);
      var created := HandleCreateAnnotation(token, data);
      h.handle.OnChange(repo.docs[docUrl]);
    }

    /** `destroy()`: the discovery session is released before the transport session. */
    method Destroy()
      modifies this, discovery
      ensures released == old(released) + [DiscoverySession, TransportSession]
      ensures !swarmOpen && discovery.destroyed
      ensures discovery.announceListeners == old(discovery.announceListeners)
      ensures discovery.unannounceListeners == old(discovery.unannounceListeners)
      ensures discovery.uniqueAnnouncements == old(discovery.uniqueAnnouncements)
    {
      discovery.Destroy();
      released := released + [DiscoverySession];
      swarmOpen := false;
      released := released + [TransportSession];
    }
  }

  /** The two objects a distributor's teardown changes. */
  function Footprint(d: Distributor): set<object>
  {
    {d, d.discovery}
  }

  /**
   * `d` is what announcing `docUrl` from `repo` registers: a distributor over
   * that store for the document and its discovery topic, in its initial state.
   */
  predicate AnnouncedFor(d: Distributor, repo: Repo, docUrl: string)
    reads d, d.discovery, repo
  {
    && d.repo == repo && d.docUrl == docUrl && d.Valid()
    && d.target == repo.docs[docUrl].target && d.Initial()
  }

  datatype RegistryError =
    /** `repo.doc(docUrl)` found no document. */
    | DocumentNotFound(docUrl: string)
    /** `swarms.get(docUrl)` was undefined, so `swarm.destroy()` threw. */
    | NoDistributor(docUrl: string)
    /** `swarms.remove` is not a method of `Map`. */
    | RemoveIsNotAFunction
    /** A distributor is already registered for the document. */
    | AlreadyRegistered(docUrl: string)

  /**
   * The module-level `swarms` map, shared by every `distributeDocs` call, and
   * the handlers those calls install.
   */
  class Registry {
    var swarms: map<string, Distributor>
    /**
     * One entry per completed `distributeDocs` call, in call order: the store
     * whose doc-added handler announces into `swarms`.
     */
    var handlers: seq<Repo>

    constructor ()
      ensures swarms == map[] && handlers == []
    {
      swarms := map[];
      handlers := [];
    }

    /** Every registered distributor's teardown footprint. */
    function Footprints(): set<object>
      reads this
    {
      set d, o | d in swarms.Values && o in Footprint(d) :: o
    }

    /**
     * `announceDoc` (also the doc-added handler): read the document's target and
     * `set` a new distributor, replacing whatever was registered for `docUrl`.
     */
    method AnnounceDoc(repo: Repo, docUrl: string) returns (r: Outcome<RegistryError>)
      modifies this
      ensures handlers == old(handlers)
      ensures docUrl !in repo.docs ==> r == Fail(DocumentNotFound(docUrl)) && swarms == old(swarms)
      ensures docUrl in repo.docs ==>
                && r == Pass
                && swarms.Keys == old(swarms.Keys) + {docUrl}
                && (forall k :: k in old(swarms) && k != docUrl ==> swarms[k] == old(swarms[k]))
                && fresh(swarms[docUrl]) && fresh(swarms[docUrl].discovery) && swarms[docUrl].Initial()
                && swarms[docUrl].repo == repo && swarms[docUrl].docUrl == docUrl
                && swarms[docUrl].target == repo.docs[docUrl].target
                && swarms[docUrl].Valid()
    {
      if docUrl !in repo.docs {
        return Fail(DocumentNotFound(docUrl));
      }
      var target := repo.docs[docUrl].target;
      var d := new Distributor(repo, target, docUrl);
      swarms := swarms[docUrl := d];
      r := Pass;
    }

    /** `announceDoc` as intended: a document that already has a distributor is refused. */
    method AnnounceDocIntended(repo: Repo, docUrl: string) returns (r: Outcome<RegistryError>)
      modifies this
      ensures handlers == old(handlers)
      ensures docUrl in old(swarms) ==> r == Fail(AlreadyRegistered(docUrl)) && swarms == old(swarms)
      ensures docUrl !in old(swarms) && docUrl !in repo.docs ==>
                r == Fail(DocumentNotFound(docUrl)) && swarms == old(swarms)
      ensures docUrl !in old(swarms) && docUrl in repo.docs ==>
                && r == Pass
                && swarms.Keys == old(swarms.Keys) + {docUrl}
                && (forall k :: k in old(swarms) ==> swarms[k] == old(swarms[k]))
                && fresh(swarms[docUrl]) && fresh(swarms[docUrl].discovery) && swarms[docUrl].Initial()
                && swarms[docUrl].repo == repo && swarms[docUrl].docUrl == docUrl
                && swarms[docUrl].target == repo.docs[docUrl].target
                && swarms[docUrl].Valid()
    {
      if docUrl in swarms {
        return Fail(AlreadyRegistered(docUrl));
      }
      r := AnnounceDoc(repo, docUrl);
    }

    /**
     * The startup loop of `distributeDocs`: announce `docs` one after another
     * into the shared map, stopping at the first document the store lacks.
     * `k` is the number announced; it is `|docs|` when none was missing.
     */
    method AnnounceEach(repo: Repo, docs: seq<string>) returns (k: nat)
      modifies this
      ensures k <= |docs| && (k < |docs| ==> docs[k] !in repo.docs)
      ensures forall j :: 0 <= j < k ==> docs[j] in repo.docs
      ensures handlers == old(handlers)
      ensures swarms.Keys == old(swarms.Keys) + (set x | x in docs[..k])
      ensures forall x :: x in swarms ==>
                if x in docs[..k] then fresh(swarms[x]) && fresh(swarms[x].discovery) && AnnouncedFor(swarms[x], repo, x)
                else x in old(swarms) && swarms[x] == old(swarms[x])
      ensures forall o :: o in Footprints() ==> o in old(Footprints()) || fresh(o)
    {
      k := 0;
      while k < |docs|
        invariant 0 <= k <= |docs|
        invariant handlers == old(handlers)
        invariant forall j :: 0 <= j < k ==> docs[j] in repo.docs
        invariant swarms.Keys == old(swarms.Keys) + (set x | x in docs[..k])
        invariant forall x :: x in swarms ==>
                    if x in docs[..k] then fresh(swarms[x]) && fresh(swarms[x].discovery) && AnnouncedFor(swarms[x], repo, x)
                    else x in old(swarms) && swarms[x] == old(swarms[x])
      {
        var o := AnnounceDoc(repo, docs[k]);
        if o.Fail? {
          break;
        }
        assert docs[..k + 1] == docs[..k] + [docs[k]];
        k := k + 1;
      }
      forall o | o in Footprints() ensures o in old(Footprints()) || fresh(o) {
        var d :| d in swarms.Values && o in Footprint(d);
        var x :| x in swarms && swarms[x] == d;
      }
    }

    /**
     * `distributeDocs` for the store `repo`, with `docs` the store's documents:
     * announce them one after another into the shared map; the first failure
     * rejects and skips the rest and the event handlers.
     */
    method DistributeDocs(repo: Repo, docs: seq<string>) returns (r: Outcome<RegistryError>)
      modifies this
      ensures r.Pass? <==> forall j :: 0 <= j < |docs| ==> docs[j] in repo.docs
      ensures handlers == old(handlers) + (if r.Pass? then [repo] else [])
      ensures r.Pass? ==> swarms.Keys == old(swarms.Keys) + (set x | x in docs)
      ensures r.Pass? ==> forall x :: x in swarms ==>
                if x in docs then fresh(swarms[x]) && fresh(swarms[x].discovery) && AnnouncedFor(swarms[x], repo, x)
                else x in old(swarms) && swarms[x] == old(swarms[x])
      ensures r.Fail? ==> exists k :: && 0 <= k < |docs| && docs[k] !in repo.docs
                                      && (forall j :: 0 <= j < k ==> docs[j] in repo.docs)
                                      && r == Fail(DocumentNotFound(docs[k]))
                                      && swarms.Keys == old(swarms.Keys) + (set x | x in docs[..k])
                                      && forall x :: x in swarms ==>
                                           if x in docs[..k] then fresh(swarms[x]) && fresh(swarms[x].discovery) && AnnouncedFor(swarms[x], repo, x)
                                           else x in old(swarms) && swarms[x] == old(swarms[x])
      ensures forall o :: o in Footprints() ==> o in old(Footprints()) || fresh(o)
    {
      var k := AnnounceEach(repo, docs);
      if k < |docs| {
        return Fail(DocumentNotFound(docs[k]));
      }
      assert docs[..k] == docs;
      handlers := handlers + [repo];
      r := Pass;
    }

    /**
     * The doc-removed handler as written: destroy the registered distributor,
     * then call the nonexistent `swarms.remove`, so the entry stays.
     */
    method DocRemoved(docUrl: string) returns (r: Outcome<RegistryError>)
      modifies if docUrl in swarms then Footprint(swarms[docUrl]) else {}
      ensures swarms == old(swarms)
      ensures docUrl !in swarms ==> r == Fail(NoDistributor(docUrl))
      ensures docUrl in swarms ==>
                var d := swarms[docUrl];
                && r == Fail(RemoveIsNotAFunction)
                && d.released == old(d.released) + [DiscoverySession, TransportSession]
                && !d.swarmOpen && d.discovery.destroyed
                && d.discovery.announceListeners == old(d.discovery.announceListeners)
                && d.discovery.unannounceListeners == old(d.discovery.unannounceListeners)
                && d.discovery.uniqueAnnouncements == old(d.discovery.uniqueAnnouncements)
    {
      if docUrl !in swarms {
        return Fail(NoDistributor(docUrl));
      }
      var swarm := swarms[docUrl];
      swarm.Destroy();
      r := Fail(RemoveIsNotAFunction);
    }

    /** The doc-removed handler as intended: destroy, then drop the entry. */
    method DocRemovedIntended(docUrl: string) returns (r: Outcome<RegistryError>)
      modifies this, if docUrl in swarms then Footprint(swarms[docUrl]) else {}
      ensures handlers == old(handlers)
      ensures swarms == old(swarms) - {docUrl}
      ensures docUrl !in old(swarms) ==> r == Fail(NoDistributor(docUrl))
      ensures docUrl in old(swarms) ==>
                var d := old(swarms[docUrl]);
                && r == Pass
                && d.released == old(d.released) + [DiscoverySession, TransportSession]
                && !d.swarmOpen && d.discovery.destroyed
                && d.discovery.announceListeners == old(d.discovery.announceListeners)
                && d.discovery.unannounceListeners == old(d.discovery.unannounceListeners)
                && d.discovery.uniqueAnnouncements == old(d.discovery.uniqueAnnouncements)
    {
      if docUrl !in swarms {
        return Fail(NoDistributor(docUrl));
      }
      var swarm := swarms[docUrl];
      swarm.Destroy();
      swarms := swarms - {docUrl};
      r := Pass;
    }

    /** The shutdown function: destroy every currently registered distributor. */
    method Shutdown()
      modifies Footprints()
      ensures swarms == old(swarms) && handlers == old(handlers)
      ensures forall d :: d in swarms.Values ==>
                && d.released == old(d.released) + [DiscoverySession, TransportSession]
                && !d.swarmOpen && d.discovery.destroyed
                && d.discovery.announceListeners == old(d.discovery.announceListeners)
                && d.discovery.unannounceListeners == old(d.discovery.unannounceListeners)
                && d.discovery.uniqueAnnouncements == old(d.discovery.uniqueAnnouncements)
    {
      var all := swarms.Values;
      var remaining := all;
      while remaining != {}
        invariant remaining <= all
        invariant forall d :: d in all && d !in remaining ==>
                    && d.released == old(d.released) + [DiscoverySession, TransportSession]
                    && !d.swarmOpen && d.discovery.destroyed
        invariant forall d :: d in remaining ==> d.released == old(d.released)
        invariant forall d :: d in all ==> d.discovery.announceListeners == old(d.discovery.announceListeners)
        invariant forall d :: d in all ==> d.discovery.unannounceListeners == old(d.discovery.unannounceListeners)
        invariant forall d :: d in all ==> d.discovery.uniqueAnnouncements == old(d.discovery.uniqueAnnouncements)
        decreases remaining
      {
        var d :| d in remaining;
        assert Footprint(d) <= Footprints();
        d.Destroy();
        remaining := remaining - {d};
      }
    }

    /**
     * doc-removed leaves the destroyed distributor registered, so a later
     * shutdown destroys it a second time.
     */
    method RemoveThenShutdown(docUrl: string)
      requires docUrl in swarms
      modifies Footprints()
      ensures var d := swarms[docUrl];
              d.released == old(d.released) + [DiscoverySession, TransportSession, DiscoverySession, TransportSession]
    {
      var r := DocRemoved(docUrl);
      Shutdown();
    }

    /**
     * doc-added for a registered document replaces its distributor without
     * destroying it: the old one stays open and is no longer reachable from the
     * registry, so no later shutdown releases it.
     */
    method AnnounceTwice(repo: Repo, docUrl: string) returns (first: Distributor)
      requires docUrl in repo.docs
      modifies this
      ensures fresh(first) && first.Initial()
      ensures first !in swarms.Values
    {
      var r := AnnounceDoc(repo, docUrl);
      first := swarms[docUrl];
      r := AnnounceDoc(repo, docUrl);
      assert forall k :: k in swarms && k != docUrl ==> swarms[k] != first;
    }

    /**
     * Two `distributeDocs` calls for two stores fill the one shared map: each
     * call's documents are registered, and one pair of store handlers is
     * installed per call.
     */
    method DistributeTwice(repoA: Repo, docsA: seq<string>, repoB: Repo, docsB: seq<string>)
      returns (r: Outcome<RegistryError>)
      modifies this
      ensures r.Pass? ==> handlers == old(handlers) + [repoA, repoB]
      ensures r.Pass? ==> forall x :: x in docsA || x in docsB ==> x in swarms
      ensures forall o :: o in Footprints() ==> o in old(Footprints()) || fresh(o)
    {
      r := DistributeDocs(repoA, docsA);
      if r.Fail? {
        return;
      }
      assert forall x :: x in docsA ==> x in swarms;
      r := DistributeDocs(repoB, docsB);
    }

    /**
     * After two `distributeDocs` calls, the shutdown function either call
     * returns destroys the distributors of both.
     */
    method TwoStoresShareShutdown(repoA: Repo, docsA: seq<string>, repoB: Repo, docsB: seq<string>)
      returns (r: Outcome<RegistryError>)
      modifies this, Footprints()
      ensures r.Pass? ==> forall x :: x in docsA || x in docsB ==>
                x in swarms && !swarms[x].swarmOpen && swarms[x].discovery.destroyed
    {
      r := DistributeTwice(repoA, docsA, repoB, docsB);
      if r.Fail? {
        return;
      }
      Shutdown();
      assert forall x :: x in swarms ==> swarms[x] in swarms.Values;
    }
  }
}
