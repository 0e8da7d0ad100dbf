/**
 * `_addMetadata`: the whitelist copy of avatar descriptors from an attribute
 * bag into a target object, used both to build outbound `info` attributes and
 * to read inbound ones.
 */
module Projection {
  import opened JsValues
  import opened Ltx

  /** The descriptor fields copied, in the order the copy visits them. */
  const Properties: seq<string> := ["id", "width", "height", "type", "bytes", "url"]

  /** `null != attrs[key]`: present, and neither `null` nor `undefined` (so `0` and `""` are kept). */
  predicate Present(attrs: map<string, JsValue>, key: string)
  {
    key in attrs && !Nullish(attrs[key])
  }

  /** The target after the copy has visited `keys` in order. */
  function CopyPresent(attrs: map<string, JsValue>, target: map<string, JsValue>, keys: seq<string>): map<string, JsValue>
    decreases |keys|
  {
    if keys == [] then target
    else
      var before := CopyPresent(attrs, target, keys[..|keys| - 1]);
      var key := keys[|keys| - 1];
      if Present(attrs, key) then before[key := attrs[key]] else before
  }

  /** The target once every descriptor field has been visited. */
  function Projected(attrs: map<string, JsValue>, target: map<string, JsValue>): map<string, JsValue>
  {
    CopyPresent(attrs, target, Properties)
  }

  /** A visited key present in `attrs` takes its value; every other key keeps the target's. */
  lemma {:induction false} CopyPresentSpec(attrs: map<string, JsValue>, target: map<string, JsValue>, keys: seq<string>)
    ensures forall k :: k in CopyPresent(attrs, target, keys) <==> k in target || (k in keys && Present(attrs, k))
    ensures forall k :: k in keys && Present(attrs, k) ==> CopyPresent(attrs, target, keys)[k] == attrs[k]
    ensures forall k :: k in target && !(k in keys && Present(attrs, k)) ==> CopyPresent(attrs, target, keys)[k] == target[k]
    decreases |keys|
  {
    if keys != [] {
      var init := keys[..|keys| - 1];
      CopyPresentSpec(attrs, target, init);
      assert forall k :: k in keys <==> k in init || k == keys[|keys| - 1];
    }
  }

  /**
   * The copy touches only whitelisted keys that are present in the source:
   * each of those takes the source's value, every other key of the target keeps
   * its value, and no other key of the source is copied.
   */
  lemma WhitelistOnly(attrs: map<string, JsValue>, target: map<string, JsValue>)
    ensures forall k :: k !in Properties ==> (k in Projected(attrs, target) <==> k in target)
    ensures forall k :: k !in Properties && k in target ==> Projected(attrs, target)[k] == target[k]
    ensures forall k :: k in Properties && !Present(attrs, k) ==> (k in Projected(attrs, target) <==> k in target)
    ensures forall k :: k in Properties && !Present(attrs, k) && k in target ==> Projected(attrs, target)[k] == target[k]
    ensures forall k :: k in Properties && Present(attrs, k) ==> k in Projected(attrs, target) && Projected(attrs, target)[k] == attrs[k]
  {
    CopyPresentSpec(attrs, target, Properties);
  }

  /** Into an empty target, the copy is exactly the whitelisted, present part of the source. */
  lemma {:induction false} ProjectionOfEmpty(attrs: map<string, JsValue>)
    ensures Projected(attrs, map[]) == map k | k in attrs && k in Properties && !Nullish(attrs[k]) :: attrs[k]
  {
    CopyPresentSpec(attrs, map[], Properties);
  }

  /** Copying an already copied descriptor changes nothing. */
  lemma {:induction false} ProjectionIdempotent(attrs: map<string, JsValue>)
    ensures Projected(Projected(attrs, map[]), map[]) == Projected(attrs, map[])
  {
    ProjectionOfEmpty(attrs);
    ProjectionOfEmpty(Projected(attrs, map[]));
  }

  /** `_addMetadata(attrs, data)`: the `forEach` over the descriptor fields, updating `data`. */
  method AddMetadata(attrs: map<string, JsValue>, data: map<string, JsValue>) returns (r: map<string, JsValue>)
    ensures r == Projected(attrs, data)
  {
    r := data;
    for i := 0 to |Properties|
      invariant r == CopyPresent(attrs, data, Properties[..i])
    {
      var property := Properties[i];
      assert Properties[..i + 1][..i] == Properties[..i];
      if Present(attrs, property) {
        r := r[property := attrs[property]];
      }
    }
    assert Properties[..|Properties|] == Properties;
  }

  /** The descriptors `handle` pushes, one per `info` element, in order. */
  function ProjectEach(infos: seq<Element>): seq<map<string, JsValue>>
    decreases |infos|
  {
    if infos == [] then []
    else ProjectEach(infos[..|infos| - 1]) + [Projected(infos[|infos| - 1].attrs, map[])]
  }

  /** One descriptor per element, each the whitelist copy of that element's attributes. */
  lemma {:induction false} ProjectEachAt(infos: seq<Element>)
    ensures |ProjectEach(infos)| == |infos|
    ensures forall i :: 0 <= i < |infos| ==> ProjectEach(infos)[i] == Projected(infos[i].attrs, map[])
    decreases |infos|
  {
    if infos != [] {
      ProjectEachAt(infos[..|infos| - 1]);
    }
  }
}
