// What the plugins' edits come to, read off the list of edits (pkg/bbr/framework/types.go), and what the request is
// answered with (pkg/bbr/handlers/request.go).
module HeaderEdits {
  import opened Wrappers
  import opened Chunking
  import opened EndpointNames
  import opened HeaderLog

  // ---- Headers ----

  predicate OnHeader(e: Edit, k: string) { (e.SetHeader? || e.RemoveHeader?) && e.key == k }

  predicate NoneOnHeader(edits: seq<Edit>, k: string) { forall i :: 0 <= i < |edits| ==> !OnHeader(edits[i], k) }

  predicate LastOnHeader(edits: seq<Edit>, i: nat, k: string) {
    i < |edits| && OnHeader(edits[i], k) && forall j :: i < j < |edits| ==> !OnHeader(edits[j], k)
  }

  /** The header is as the edit leaves it. */
  predicate HeaderAfter(e: Edit, headers: Headers, k: string) {
    if e.SetHeader? then k in headers && headers[k] == e.value else k !in headers
  }

  predicate SameHeader(a: Headers, b: Headers, k: string) { (k in a <==> k in b) && (k in a ==> a[k] == b[k]) }

  lemma SameHeaderAfter(e: Edit, a: Headers, b: Headers, k: string)
    requires SameHeader(a, b, k)
    ensures HeaderAfter(e, a, k) <==> HeaderAfter(e, b, k)
  {
  }

  lemma OneHeaderEdit(m: Message, e: Edit, k: string)
    ensures var r := Edited(m, e);
            if OnHeader(e, k) then HeaderAfter(e, r.headers, k)
            else SameHeader(r.headers, m.headers, k) && (k in r.mutated <==> k in m.mutated)
                 && (k in r.removed <==> k in m.removed)
  {
  }

  /** After any edits a header is as the last edit on it says: set to its value, or absent when removed. */
  lemma {:induction false} HeaderIsLastEdit(headers: Headers, body: Body, edits: seq<Edit>, i: nat, k: string)
    requires LastOnHeader(edits, i, k)
    ensures HeaderAfter(edits[i], EditedBy(Received(headers, body), edits).headers, k)
    decreases |edits|
  {
    var n := |edits| - 1;
    var before := EditedBy(Received(headers, body), edits[..n]);
    OneHeaderEdit(before, edits[n], k);
    if i < n {
      assert LastOnHeader(edits[..n], i, k);
      HeaderIsLastEdit(headers, body, edits[..n], i, k);
      SameHeaderAfter(edits[i], Edited(before, edits[n]).headers, before.headers, k);
    }
  }

  /** A header that no edit touches is as it was, and not in the log. */
  lemma {:induction false} UntouchedHeader(headers: Headers, body: Body, edits: seq<Edit>, k: string)
    requires NoneOnHeader(edits, k)
    ensures var m := EditedBy(Received(headers, body), edits);
            SameHeader(m.headers, headers, k) && k !in m.mutated && k !in m.removed
    decreases |edits|
  {
    if edits != [] {
      var n := |edits| - 1;
      UntouchedHeader(headers, body, edits[..n], k);
      OneHeaderEdit(EditedBy(Received(headers, body), edits[..n]), edits[n], k);
    }
  }

  // ---- Body fields ----

  predicate OnField(e: Edit, k: string) {
    e.SetBody? || ((e.SetBodyField? || e.RemoveBodyField?) && e.key == k)
  }

  predicate NoneOnField(edits: seq<Edit>, k: string) { forall i :: 0 <= i < |edits| ==> !OnField(edits[i], k) }

  predicate LastOnField(edits: seq<Edit>, i: nat, k: string) {
    i < |edits| && OnField(edits[i], k) && forall j :: i < j < |edits| ==> !OnField(edits[j], k)
  }

  predicate SameField(a: Body, b: Body, k: string) { (k in a <==> k in b) && (k in a ==> a[k] == b[k]) }

  /** What one edit on a field leaves there. */
  predicate FieldAfter(e: Edit, body: Body, k: string) {
    match e
    case SetBody(whole) => SameField(body, whole, k)
    case SetBodyField(_, json) => k in body && body[k] == json
    case _ => k !in body
  }

  lemma OneFieldEdit(m: Message, e: Edit, k: string)
    ensures if OnField(e, k) then FieldAfter(e, Edited(m, e).body, k) else SameField(Edited(m, e).body, m.body, k)
  {
  }

  lemma SameFieldAfter(e: Edit, a: Body, b: Body, k: string)
    requires SameField(a, b, k)
    ensures FieldAfter(e, a, k) <==> FieldAfter(e, b, k)
  {
  }

  /** After any edits a body field is as the last edit on it says: that of the body set, the value set, or absent when
      removed. */
  lemma {:induction false} FieldIsLastEdit(headers: Headers, body: Body, edits: seq<Edit>, i: nat, k: string)
    requires LastOnField(edits, i, k)
    ensures FieldAfter(edits[i], EditedBy(Received(headers, body), edits).body, k)
    decreases |edits|
  {
    var n := |edits| - 1;
    var before := EditedBy(Received(headers, body), edits[..n]);
    OneFieldEdit(before, edits[n], k);
    if i < n {
      assert LastOnField(edits[..n], i, k);
      FieldIsLastEdit(headers, body, edits[..n], i, k);
      SameFieldAfter(edits[i], Edited(before, edits[n]).body, before.body, k);
    }
  }

  /** A field that no edit touches is as it was. */
  lemma {:induction false} UntouchedField(headers: Headers, body: Body, edits: seq<Edit>, k: string)
    requires NoneOnField(edits, k)
    ensures SameField(EditedBy(Received(headers, body), edits).body, body, k)
    decreases |edits|
  {
    if edits != [] {
      var n := |edits| - 1;
      UntouchedField(headers, body, edits[..n], k);
      OneFieldEdit(EditedBy(Received(headers, body), edits[..n]), edits[n], k);
    }
  }

  predicate ChangesBody(e: Edit, body: Body) {
    e.SetBody? || e.SetBodyField? || (e.RemoveBodyField? && e.key in body)
  }

  /** The body counts as mutated exactly when it or a field was set, or a field it came with was removed; else it is the
      one received. */
  lemma {:induction false} MutatedIff(headers: Headers, body: Body, edits: seq<Edit>)
    ensures var m := EditedBy(Received(headers, body), edits);
            && (m.bodyMutated <==> exists i :: 0 <= i < |edits| && ChangesBody(edits[i], body))
            && (!m.bodyMutated ==> m.body == body)
    decreases |edits|
  {
    if edits != [] {
      var n := |edits| - 1;
      MutatedIff(headers, body, edits[..n]);
      assert forall i :: 0 <= i < n ==> edits[..n][i] == edits[i];
      assert (exists i :: 0 <= i < |edits| && ChangesBody(edits[i], body))
        <==> (exists i :: 0 <= i < n && ChangesBody(edits[..n][i], body)) || ChangesBody(edits[n], body);
    }
  }

  // ---- Answers ----

  /** A request is answered exactly when its body parses, no plugin fails, and a mutated body can be marshalled. */
  lemma AnsweredIff(headers: Headers, streaming: bool, raw: Bytes, edits: seq<Edit>, pluginFails: bool,
                    parse: Bytes -> Option<Body>, marshal: Body -> Option<Bytes>)
    ensures match Handled(headers, streaming, raw, edits, pluginFails, parse, marshal)
            case Err(BadRequest) => parse(raw).None?
            case Err(PluginFailed) => parse(raw).Some? && pluginFails
            case Err(MarshalFailed) =>
              && parse(raw).Some? && !pluginFails
              && var m := EditedBy(Received(headers, parse(raw).value), edits); m.bodyMutated && marshal(m.body).None?
            case Ok(_) =>
              && parse(raw).Some? && !pluginFails
              && var m := EditedBy(Received(headers, parse(raw).value), edits); m.bodyMutated ==> marshal(m.body).Some?
  {
  }

  /** Without streaming there is one reply. It has a body exactly when the body was mutated: the marshalled one, whose
      length the replayed headers give; otherwise the replayed headers are those the edits leave. */
  lemma WholeReplied(headers: Headers, raw: Bytes, edits: seq<Edit>,
                     parse: Bytes -> Option<Body>, marshal: Body -> Option<Bytes>)
    requires Handled(headers, false, raw, edits, false, parse, marshal).Ok?
    ensures var final := EditedBy(Received(headers, parse(raw).value), edits);
            exists sets, removes, body ::
              && Handled(headers, false, raw, edits, false, parse, marshal).value == [WholeReply(sets, removes, body)]
              && var replayed := SetsThenRemoves(headers, sets, removes);
              && replayed == RemovesThenSets(headers, sets, removes)
              && if !final.bodyMutated then body.None? && replayed == final.headers
                 else body.Some? && body == marshal(final.body)
                      && replayed == final.headers["Content-Length" := Itoa(|body.value|)]
  {
    var before := EditedBy(Received(headers, parse(raw).value), edits);
    LogReplays(headers, parse(raw).value, edits);
    var (m, bytes) := Sized(before, false, raw, marshal).value;
    if before.bodyMutated {
      EditKeepsLog(headers, before, SetHeader(CONTENT_LENGTH, Itoa(|bytes|)));
      assert before.headers[CONTENT_LENGTH := Itoa(|bytes|)] == m.headers;
    }
    assert Handled(headers, false, raw, edits, false, parse, marshal).value
        == [WholeReply(m.mutated, m.removed, if m.bodyMutated then Some(bytes) else None)];
  }
}
