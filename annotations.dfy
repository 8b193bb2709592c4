/**
 * One document's annotation list: the values it holds, how annotation ids are
 * built, the list and get-by-id reads, and the pure effect of each atomic
 * create, update and delete transaction on the list.
 */
module Annotations {
  import opened Wrappers
  import opened ArraySplice

  /** A JSON value (numbers are modelled as integers). */
  datatype Value =
    | Null
    | Bool(b: bool)
    | Num(n: int)
    | Str(s: string)
    | Arr(items: seq<Value>)
    | Obj(fields: map<string, Value>)

  /** An annotation is a JSON object: field names to values. */
  type Annotation = map<string, Value>

  /**
   * A document as the store holds it: its discovery topic and its
   * `annotations` field, `None` when that field is missing or is not an array.
   */
  datatype Document = Document(target: string, annotations: Option<seq<Annotation>>)

  /** Peers are opaque identifiers. */
  type PeerId = string

  /** The response codes the handlers report. */
  datatype Code = OK | CREATED | UPDATED | DELETED | NOT_FOUND | PUB_INIT

  /** What a response or a publish event carries. */
  datatype Payload =
    | AnnotationList(items: seq<Annotation>)
    | OneAnnotation(annotation: Annotation)
    | WholeDocument(doc: Document)
    | Peers(peers: set<PeerId>)

  datatype Response = Response(code: Code, data: Option<Payload>)

  /** The JSON-LD context of the W3C Web Annotation Data Model (section 3.1). */
  const AnnoContext: string := "http://www.w3.org/ns/anno.jsonld"
  const AnnoType: string := "Annotation"

  /** The id of the annotation with token `token` in document `docUrl`. */
  function AnnotationUrl(docUrl: string, token: string): string
  {
    docUrl + "/annotations/" + token + ".jsonld"
  }

  /** Distinct tokens give distinct annotation ids within one document. */
  lemma AnnotationUrlInjective(docUrl: string, t1: string, t2: string)
    requires AnnotationUrl(docUrl, t1) == AnnotationUrl(docUrl, t2)
    ensures t1 == t2
  {
    var p := docUrl + "/annotations/";
    assert AnnotationUrl(docUrl, t1) == p + t1 + ".jsonld";
    assert AnnotationUrl(docUrl, t2) == p + t2 + ".jsonld";
    assert |t1| == |t2|;
    assert t1 == AnnotationUrl(docUrl, t1)[|p|..|p| + |t1|];
    assert t2 == AnnotationUrl(docUrl, t2)[|p|..|p| + |t2|];
  }

  /** The search predicate of `find` and `findIndex`: the `id` field is the string `url`. */
  predicate HasId(a: Annotation, url: string)
  {
    "id" in a && a["id"] == Str(url)
  }

  /** The stored annotations, read as empty when the field is missing or not an array. */
  function AnnotationsOrEmpty(doc: Document): seq<Annotation>
  {
    if doc.annotations.Some? then doc.annotations.value else []
  }

  /**
   * The JSON-LD form of an annotation: the context and type fields are added,
   * overriding fields of the same name; every other field is kept.
   */
  function Enrich(a: Annotation): (e: Annotation)
    ensures e.Keys == a.Keys + {"@context", "type"}
    ensures e["@context"] == Str(AnnoContext) && e["type"] == Str(AnnoType)
    ensures forall k :: k in a && k != "@context" && k != "type" ==> e[k] == a[k]
  {
    a["@context" := Str(AnnoContext)]["type" := Str(AnnoType)]
  }

  /** Every annotation of `s`, enriched, in order. */
  function EnrichAll(s: seq<Annotation>): seq<Annotation>
  {
    seq(|s|, i requires 0 <= i < |s| => Enrich(s[i]))
  }

  /** Enriching distributes over appending one annotation. */
  lemma EnrichAllAppend(s: seq<Annotation>, a: Annotation)
    ensures EnrichAll(s + [a]) == EnrichAll(s) + [Enrich(a)]
  {
  }

  /** The first position whose id is `url`, or -1 when no element matches. */
  function FindIndex(s: seq<Annotation>, url: string): (i: int)
    ensures -1 <= i < |s|
    ensures 0 <= i ==> HasId(s[i], url)
    ensures 0 <= i ==> forall j :: 0 <= j < i ==> !HasId(s[j], url)
    ensures i == -1 <==> forall j :: 0 <= j < |s| ==> !HasId(s[j], url)
  {
    if s == [] then -1
    else if HasId(s[0], url) then 0
    else
      var k := FindIndex(s[1..], url);
      if k < 0 then -1 else k + 1
  }

  /** No annotation of `s` carries the id `url`. */
  predicate Absent(s: seq<Annotation>, url: string)
  {
    forall j :: 0 <= j < |s| ==> !HasId(s[j], url)
  }

  /** `i` is the first position of `s` whose id is `url`. */
  predicate FirstMatch(s: seq<Annotation>, url: string, i: int)
  {
    0 <= i < |s| && HasId(s[i], url) && forall j :: 0 <= j < i ==> !HasId(s[j], url)
  }

  /** The first matching position is unique, so it is the one FindIndex reports. */
  lemma FirstMatchIsFindIndex(s: seq<Annotation>, url: string, i: int)
    requires FirstMatch(s, url, i)
    ensures FindIndex(s, url) == i
  {
  }

  // ---------------------------------------------------------------- reads

  /** The list handler: every stored annotation, enriched, in order, always OK. */
  function ListResponse(doc: Document): (r: Response)
    ensures r.code == OK && r.data.Some? && r.data.value.AnnotationList?
    ensures |r.data.value.items| == |AnnotationsOrEmpty(doc)|
    ensures forall i :: 0 <= i < |AnnotationsOrEmpty(doc)| ==>
              r.data.value.items[i] == Enrich(AnnotationsOrEmpty(doc)[i])
    ensures doc.annotations.None? ==> r.data.value.items == []
  {
    Response(OK, Some(AnnotationList(EnrichAll(AnnotationsOrEmpty(doc)))))
  }

  /**
   * The get-by-id handler: the first annotation whose id is built from `id`,
   * enriched, with OK; NOT_FOUND and no data when there is none.
   */
  function GetResponse(doc: Document, docUrl: string, id: string): (r: Response)
    ensures r.code == OK || r.code == NOT_FOUND
    ensures r.code == NOT_FOUND <==> Absent(AnnotationsOrEmpty(doc), AnnotationUrl(docUrl, id))
    ensures r.code == NOT_FOUND ==> r.data == None
    ensures forall i :: FirstMatch(AnnotationsOrEmpty(doc), AnnotationUrl(docUrl, id), i) ==>
              r == Response(OK, Some(OneAnnotation(Enrich(AnnotationsOrEmpty(doc)[i]))))
  {
    var s := AnnotationsOrEmpty(doc);
    var i := FindIndex(s, AnnotationUrl(docUrl, id));
    if i < 0 then Response(NOT_FOUND, None)
    else
      assert forall j :: FirstMatch(s, AnnotationUrl(docUrl, id), j) ==> j == i by {
        forall j | FirstMatch(s, AnnotationUrl(docUrl, id), j) ensures j == i {
          FirstMatchIsFindIndex(s, AnnotationUrl(docUrl, id), j);
        }
      }
      Response(OK, Some(OneAnnotation(Enrich(s[i]))))
  }

  // ---------------------------------------------------------------- create

  /**
   * A new annotation: the payload with its id built from the token and the token
   * itself stored beside it, both overriding any the payload carried.
   */
  function NewAnnotation(docUrl: string, token: string, data: Annotation): (a: Annotation)
    ensures HasId(a, AnnotationUrl(docUrl, token))
    ensures "annotation_id" in a && a["annotation_id"] == Str(token)
    ensures a.Keys == data.Keys + {"id", "annotation_id"}
    ensures forall k :: k in data && k != "id" && k != "annotation_id" ==> a[k] == data[k]
  {
    data["id" := Str(AnnotationUrl(docUrl, token))]["annotation_id" := Str(token)]
  }

  /**
   * The create transaction: a missing or non-array list becomes empty, then the
   * annotation is appended; the prefix and the rest of the document are kept.
   */
  function CreateStep(doc: Document, a: Annotation): (d: Document)
    ensures d.target == doc.target && d.annotations.Some?
    ensures |d.annotations.value| == |AnnotationsOrEmpty(doc)| + 1
    ensures d.annotations.value[..|AnnotationsOrEmpty(doc)|] == AnnotationsOrEmpty(doc)
    ensures d.annotations.value[|AnnotationsOrEmpty(doc)|] == a
  {
    doc.(annotations := Some(AnnotationsOrEmpty(doc) + [a]))
  }

  /** The first match in `s + [a]` is the last position when `s` has none. */
  lemma FindIndexAppend(s: seq<Annotation>, url: string, a: Annotation)
    requires Absent(s, url) && HasId(a, url)
    ensures FindIndex(s + [a], url) == |s|
  {
    var t := s + [a];
    assert forall j :: 0 <= j < |s| ==> t[j] == s[j];
    FirstMatchIsFindIndex(t, url, |s|);
  }

  /**
   * Round trip: after creating an annotation with a token no stored annotation's
   * id was built from, get-by-id with that token returns it, enriched, with OK.
   */
  lemma GetAfterCreate(doc: Document, docUrl: string, token: string, data: Annotation)
    requires Absent(AnnotationsOrEmpty(doc), AnnotationUrl(docUrl, token))
    ensures GetResponse(CreateStep(doc, NewAnnotation(docUrl, token, data)), docUrl, token)
            == Response(OK, Some(OneAnnotation(Enrich(NewAnnotation(docUrl, token, data)))))
  {
    var s := AnnotationsOrEmpty(doc);
    var a := NewAnnotation(docUrl, token, data);
    var url := AnnotationUrl(docUrl, token);
    var d := CreateStep(doc, a);
    assert AnnotationsOrEmpty(d) == s + [a];
    FindIndexAppend(s, url, a);
    assert FirstMatch(s + [a], url, |s|);
  }

  /**
   * Create, then list: the list answers with the old annotations followed by
   * the new one, all enriched.
   */
  lemma ListAfterCreate(doc: Document, a: Annotation)
    ensures AnnotationsOrEmpty(CreateStep(doc, a)) == AnnotationsOrEmpty(doc) + [a]
    ensures ListResponse(CreateStep(doc, a)) ==
              Response(OK, Some(AnnotationList(EnrichAll(AnnotationsOrEmpty(doc)) + [Enrich(a)])))
  {
    EnrichAllAppend(AnnotationsOrEmpty(doc), a);
  }

  // ---------------------------------------------------------------- update and delete, as written

  /**
   * The update transaction as the code runs it: `splice(findIndex(...), 1, data)`
   * whether or not the id was found, so a miss splices at -1.
   */
  function UpdatedAnnotations(s: seq<Annotation>, url: string, data: Annotation): (r: seq<Annotation>)
    ensures |r| == if s == [] then 1 else |s|
  {
    Splice(s, FindIndex(s, url), 1, [data])
  }

  /** The delete transaction as the code runs it: `splice(findIndex(...), 1)`. */
  function DeletedAnnotations(s: seq<Annotation>, url: string): (r: seq<Annotation>)
    ensures |r| == if s == [] then 0 else |s| - 1
  {
    Splice(s, FindIndex(s, url), 1, [])
  }

  /** Update on a present id replaces the first match in place and nothing else. */
  lemma UpdatePresentReplaces(s: seq<Annotation>, url: string, data: Annotation, i: int)
    requires FirstMatch(s, url, i)
    ensures UpdatedAnnotations(s, url, data) == s[i := data]
  {
    FirstMatchIsFindIndex(s, url, i);
    SpliceReplaceAt(s, i, data);
  }

  /** Update on an absent id still overwrites the last element of a non-empty list. */
  lemma UpdateAbsentOverwritesLast(s: seq<Annotation>, url: string, data: Annotation)
    requires Absent(s, url) && |s| > 0
    ensures UpdatedAnnotations(s, url, data) == s[|s| - 1 := data]
  {
    assert FindIndex(s, url) == -1;
    SpliceMinusOne(s, [data]);
  }

  /** Update on an empty list inserts the payload. */
  lemma UpdateAbsentOnEmptyInserts(url: string, data: Annotation)
    ensures UpdatedAnnotations([], url, data) == [data]
  {
    SpliceMinusOneEmpty([data]);
  }

  /** Delete on a present id removes exactly the first match, keeping the others' order. */
  lemma DeletePresentRemoves(s: seq<Annotation>, url: string, i: int)
    requires FirstMatch(s, url, i)
    ensures DeletedAnnotations(s, url) == s[..i] + s[i + 1..]
  {
    FirstMatchIsFindIndex(s, url, i);
    SpliceRemoveAt(s, i);
  }

  /** Delete on an absent id still removes the last element of a non-empty list. */
  lemma DeleteAbsentRemovesLast(s: seq<Annotation>, url: string)
    requires Absent(s, url) && |s| > 0
    ensures DeletedAnnotations(s, url) == s[..|s| - 1]
  {
    assert FindIndex(s, url) == -1;
    SpliceMinusOne(s, []);
  }

  /** Delete on an empty list changes nothing. */
  lemma DeleteAbsentOnEmptyKeeps(url: string)
    ensures DeletedAnnotations([], url) == []
  {
    SpliceMinusOneEmpty<Annotation>([]);
  }

  // ---------------------------------------------------------------- update and delete, as intended

  /** Update that leaves the list alone when the id is absent. */
  function IntendedUpdate(s: seq<Annotation>, url: string, data: Annotation): (r: seq<Annotation>)
    ensures Absent(s, url) ==> r == s
    ensures forall i :: FirstMatch(s, url, i) ==> r == s[i := data]
  {
    var i := FindIndex(s, url);
    if i < 0 then s
    else
      assert forall j :: FirstMatch(s, url, j) ==> j == i by {
        forall j | FirstMatch(s, url, j) ensures j == i { FirstMatchIsFindIndex(s, url, j); }
      }
      s[i := data]
  }

  /** Delete that leaves the list alone when the id is absent. */
  function IntendedDelete(s: seq<Annotation>, url: string): (r: seq<Annotation>)
    ensures Absent(s, url) ==> r == s
    ensures forall i :: FirstMatch(s, url, i) ==> r == s[..i] + s[i + 1..]
  {
    var i := FindIndex(s, url);
    if i < 0 then s
    else
      assert forall j :: FirstMatch(s, url, j) ==> j == i by {
        forall j | FirstMatch(s, url, j) ensures j == i { FirstMatchIsFindIndex(s, url, j); }
      }
      s[..i] + s[i + 1..]
  }

  /** On a present id the code as written and the intended update agree. */
  lemma UpdateAgreesWhenPresent(s: seq<Annotation>, url: string, data: Annotation)
    requires !Absent(s, url)
    ensures UpdatedAnnotations(s, url, data) == IntendedUpdate(s, url, data)
  {
    var i := FindIndex(s, url);
    UpdatePresentReplaces(s, url, data, i);
  }

  /** A one-element list without the id: the written update overwrites it. */
  lemma UpdateFallThroughCounterexample()
    ensures UpdatedAnnotations([map["id" := Str("a")]], "b", map[])
            != IntendedUpdate([map["id" := Str("a")]], "b", map[])
  {
    var s: seq<Annotation> := [map["id" := Str("a")]];
    assert Absent(s, "b");
    UpdateAbsentOverwritesLast(s, "b", map[]);
    assert UpdatedAnnotations(s, "b", map[])[0] == map[];
    assert "id" in s[0];
  }

  /** A one-element list without the id: the written delete empties it. */
  lemma DeleteFallThroughCounterexample()
    ensures DeletedAnnotations([map["id" := Str("a")]], "b")
            != IntendedDelete([map["id" := Str("a")]], "b")
  {
    var s: seq<Annotation> := [map["id" := Str("a")]];
    assert Absent(s, "b");
    assert |DeletedAnnotations(s, "b")| == 0;
  }

  // ---------------------------------------------------------------- the id invariant

  /** `a` carries a string token and the id built from it. */
  predicate WellFormedAnnotation(docUrl: string, a: Annotation)
  {
    && "annotation_id" in a && a["annotation_id"].Str?
    && HasId(a, AnnotationUrl(docUrl, a["annotation_id"].s))
  }

  /** The token of a well-formed annotation. */
  function TokenOf(docUrl: string, a: Annotation): string
    requires WellFormedAnnotation(docUrl, a)
  {
    a["annotation_id"].s
  }

  /**
   * The document invariant: every annotation's id is built from its token, and
   * tokens are unique within the document.
   */
  predicate WellFormed(docUrl: string, s: seq<Annotation>)
  {
    && (forall i :: 0 <= i < |s| ==> WellFormedAnnotation(docUrl, s[i]))
    && (forall i, j :: 0 <= i < j < |s| ==> TokenOf(docUrl, s[i]) != TokenOf(docUrl, s[j]))
  }

  /** No stored annotation has token `token`. */
  predicate FreshToken(docUrl: string, s: seq<Annotation>, token: string)
    requires WellFormed(docUrl, s)
  {
    forall i :: 0 <= i < |s| ==> TokenOf(docUrl, s[i]) != token
  }

  /** In a well-formed list a fresh token's id is absent, so the round trip applies. */
  lemma FreshTokenIsAbsent(docUrl: string, s: seq<Annotation>, token: string)
    requires WellFormed(docUrl, s) && FreshToken(docUrl, s, token)
    ensures Absent(s, AnnotationUrl(docUrl, token))
  {
    forall j | 0 <= j < |s| ensures !HasId(s[j], AnnotationUrl(docUrl, token)) {
      if HasId(s[j], AnnotationUrl(docUrl, token)) {
        AnnotationUrlInjective(docUrl, TokenOf(docUrl, s[j]), token);
      }
    }
  }

  /** Creating with a fresh token keeps the invariant. */
  lemma CreateKeepsWellFormed(docUrl: string, s: seq<Annotation>, token: string, data: Annotation)
    requires WellFormed(docUrl, s) && FreshToken(docUrl, s, token)
    ensures WellFormed(docUrl, s + [NewAnnotation(docUrl, token, data)])
  {
    var t := s + [NewAnnotation(docUrl, token, data)];
    assert forall i :: 0 <= i < |s| ==> t[i] == s[i];
  }

  /** Removing any one element keeps the invariant. */
  lemma RemoveKeepsWellFormed(docUrl: string, s: seq<Annotation>, i: nat)
    requires WellFormed(docUrl, s) && i < |s|
    ensures WellFormed(docUrl, s[..i] + s[i + 1..])
  {
    var t := s[..i] + s[i + 1..];
    assert forall k :: 0 <= k < |t| ==> t[k] == s[if k < i then k else k + 1];
  }

  /** Delete as written keeps the invariant, whether the id is present or not. */
  lemma DeleteKeepsWellFormed(docUrl: string, s: seq<Annotation>, url: string)
    requires WellFormed(docUrl, s)
    ensures WellFormed(docUrl, DeletedAnnotations(s, url))
  {
    if s == [] {
      DeleteAbsentOnEmptyKeeps(url);
    } else if Absent(s, url) {
      DeleteAbsentRemovesLast(s, url);
      RemoveKeepsWellFormed(docUrl, s, |s| - 1);
      assert s[..|s| - 1] + s[|s|..] == s[..|s| - 1];
    } else {
      var i := FindIndex(s, url);
      DeletePresentRemoves(s, url, i);
      RemoveKeepsWellFormed(docUrl, s, i);
    }
  }

  /** In a well-formed list, a deleted annotation can no longer be found. */
  lemma GetAfterDelete(doc: Document, docUrl: string, id: string)
    requires WellFormed(docUrl, AnnotationsOrEmpty(doc))
    requires !Absent(AnnotationsOrEmpty(doc), AnnotationUrl(docUrl, id))
    ensures GetResponse(doc.(annotations := Some(DeletedAnnotations(AnnotationsOrEmpty(doc), AnnotationUrl(docUrl, id)))), docUrl, id).code == NOT_FOUND
  {
    var s := AnnotationsOrEmpty(doc);
    var url := AnnotationUrl(docUrl, id);
    var i := FindIndex(s, url);
    DeletePresentRemoves(s, url, i);
    var t := s[..i] + s[i + 1..];
    forall k | 0 <= k < |t| ensures !HasId(t[k], url) {
      var m := if k < i then k else k + 1;
      assert t[k] == s[m];
      if HasId(s[m], url) {
        AnnotationUrlInjective(docUrl, TokenOf(docUrl, s[m]), TokenOf(docUrl, s[i]));
      }
    }
  }

  /**
   * Update splices the payload in as it is, so a payload that does not carry
   * the id fields breaks the invariant, and the annotation can no longer be
   * found by its token.
   */
  lemma UpdateBreaksWellFormed()
    ensures WellFormed("d", [NewAnnotation("d", "t", map[])])
    ensures !WellFormed("d", UpdatedAnnotations([NewAnnotation("d", "t", map[])], AnnotationUrl("d", "t"), map[]))
    ensures GetResponse(Document("x", Some(UpdatedAnnotations([NewAnnotation("d", "t", map[])], AnnotationUrl("d", "t"), map[]))), "d", "t").code
            == NOT_FOUND
  {
    var s := [NewAnnotation("d", "t", map[])];
    var url := AnnotationUrl("d", "t");
    assert FirstMatch(s, url, 0);
    UpdatePresentReplaces(s, url, map[], 0);
    var t := UpdatedAnnotations(s, url, map[]);
    assert t == [map[]];
    assert !WellFormedAnnotation("d", t[0]);
    assert Absent(t, url);
  }

  /**
   * Update of a present id keeps the invariant when the payload carries the
   * same token and the id built from it.
   */
  lemma UpdateKeepsWellFormed(docUrl: string, s: seq<Annotation>, id: string, data: Annotation, i: int)
    requires WellFormed(docUrl, s) && FirstMatch(s, AnnotationUrl(docUrl, id), i)
    requires WellFormedAnnotation(docUrl, data) && TokenOf(docUrl, data) == id
    ensures WellFormed(docUrl, UpdatedAnnotations(s, AnnotationUrl(docUrl, id), data))
  {
    UpdatePresentReplaces(s, AnnotationUrl(docUrl, id), data, i);
    AnnotationUrlInjective(docUrl, TokenOf(docUrl, s[i]), id);
    var t := s[i := data];
    assert forall k :: 0 <= k < |t| ==> TokenOf(docUrl, t[k]) == TokenOf(docUrl, s[k]);
  }

  // ---------------------------------------------------------------- many creates

  /** One create: the token the handler draws and the posted payload. */
  datatype CreateRequest = CreateRequest(token: string, data: Annotation)

  /** The list after one create per request, in order. */
  function CreateAll(docUrl: string, s: seq<Annotation>, reqs: seq<CreateRequest>): (r: seq<Annotation>)
    ensures |r| == |s| + |reqs|
    decreases |reqs|
  {
    if reqs == [] then s
    else CreateAll(docUrl, s + [NewAnnotation(docUrl, reqs[0].token, reqs[0].data)], reqs[1..])
  }

  /** The requests' tokens are pairwise distinct and fresh for `s`. */
  predicate TokensFresh(docUrl: string, s: seq<Annotation>, reqs: seq<CreateRequest>)
    requires WellFormed(docUrl, s)
  {
    && (forall i, j :: 0 <= i < j < |reqs| ==> reqs[i].token != reqs[j].token)
    && (forall i :: 0 <= i < |reqs| ==> FreshToken(docUrl, s, reqs[i].token))
  }

  /**
   * N serialized creates with distinct fresh tokens give N more annotations, every
   * one with a distinct token and a matching id.
   */
  lemma {:induction false} CreateAllWellFormed(docUrl: string, s: seq<Annotation>, reqs: seq<CreateRequest>)
    requires WellFormed(docUrl, s) && TokensFresh(docUrl, s, reqs)
    ensures WellFormed(docUrl, CreateAll(docUrl, s, reqs))
    decreases |reqs|
  {
    if reqs != [] {
      var a := NewAnnotation(docUrl, reqs[0].token, reqs[0].data);
      CreateKeepsWellFormed(docUrl, s, reqs[0].token, reqs[0].data);
      var t := s + [a];
      var rest := reqs[1..];
      forall i | 0 <= i < |rest| ensures FreshToken(docUrl, t, rest[i].token) {
        assert rest[i] == reqs[i + 1];
        assert forall k :: 0 <= k < |s| ==> t[k] == s[k];
      }
      assert TokensFresh(docUrl, t, rest);
      CreateAllWellFormed(docUrl, t, rest);
    }
  }
}
