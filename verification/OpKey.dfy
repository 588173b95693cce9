/**
 The key of a write in the journal (src/lymaille/store/write_journal.rs, `op_key`).

 The digest of the text is not modelled; `Key` of `AgentWrites` stands for it.
 */
module OpKey {
  import opened JsonValues
  import opened AgentWrites
  import opened CanonicalText

  /** The JSON envelope `op_key` digests. */
  function Envelope(call: Call): Json
  {
    match call
    case CreateCall(resource, body) =>
      Obj(map["op" := Text("create"), "resource" := Text(resource), "id" := Null, "body" := body])
    case UpdateCall(resource, id, body) =>
      Obj(map["op" := Text("update"), "resource" := Text(resource), "id" := Int(id), "body" := body])
    case DeleteCall(resource, id) =>
      Obj(map["op" := Text("delete"), "resource" := Text(resource), "id" := Int(id), "body" := Null])
  }

  lemma OpsDiffer()
    ensures "create" != "update" && "create" != "delete" && "update" != "delete"
  {
    assert "create"[0] != "update"[0] && "create"[0] != "delete"[0] && "update"[0] != "delete"[0];
  }

  lemma EnvelopeIsTheCall(a: Call, b: Call)
    requires Envelope(a) == Envelope(b)
    ensures a == b
  {
    var f, g := Envelope(a).fields, Envelope(b).fields;
    assert f["op"] == g["op"] && f["resource"] == g["resource"] && f["id"] == g["id"] && f["body"] == g["body"];
    OpsDiffer();
  }

  /** The text under the digest tells any two calls apart: the verb, the resource, the id and every
      part of the body. So the journal key is the call, up to collisions of SHA-256. */
  lemma KeyTextIsTheCall(float: FloatText, a: Call, b: Call)
    requires FloatsPrint(float)
    ensures Canonical(float, Envelope(a)) == Canonical(float, Envelope(b)) <==> a == b
  {
    CanonicalIsInjective(float, Envelope(a), Envelope(b));
    if Envelope(a) == Envelope(b) {
      EnvelopeIsTheCall(a, b);
    }
  }
}
