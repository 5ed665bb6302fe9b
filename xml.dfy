/** A parsed XML element, as the element tree library hands it over, and attribute lookup. */
module Xml {
  import opened Common

  datatype Element = Element(
    tag: string,
    attrib: map<string, string>,
    text: Option<string>,      // None when the element has no direct text
    children: seq<Element>)

  /** `e.attrib[key]`: the value, or the KeyError naming the tag and the key. */
  function Attribute(e: Element, key: string): (r: Result<string>)
    ensures r.Ok? <==> key in e.attrib
    ensures r.Ok? ==> r.value == e.attrib[key]
    ensures r.Err? ==> r.error == MissingAttribute(e.tag, key)
  {
    if key in e.attrib then Ok(e.attrib[key]) else Err(MissingAttribute(e.tag, key))
  }

  /** The first of `keys` that `attrib` lacks, if any: the key whose lookup raises first
      when the keys are looked up in order. */
  function FirstMissing(attrib: map<string, string>, keys: seq<string>): (r: Option<string>)
    ensures r.None? <==> forall i :: 0 <= i < |keys| ==> keys[i] in attrib
    ensures r.Some? ==> exists i :: 0 <= i < |keys| && keys[i] == r.value && r.value !in attrib &&
                                    forall j :: 0 <= j < i ==> keys[j] in attrib
    decreases |keys|
  {
    if keys == [] then None
    else if keys[0] !in attrib then Some(keys[0])
    else
      var rest := FirstMissing(attrib, keys[1..]);
      if rest.Some? then
        ghost var i :| 0 <= i < |keys| - 1 && keys[1..][i] == rest.value && rest.value !in attrib &&
                       forall j :: 0 <= j < i ==> keys[1..][j] in attrib;
        assert keys[i + 1] == rest.value;
        assert forall j :: 0 <= j < i + 1 ==> keys[j] in attrib by {
          forall j | 0 <= j < i + 1 ensures keys[j] in attrib {
            if j > 0 { assert keys[j] == keys[1..][j - 1]; }
          }
        }
        rest
      else
        assert forall i :: 0 <= i < |keys| ==> keys[i] in attrib by {
          forall i | 0 <= i < |keys| ensures keys[i] in attrib {
            if i > 0 { assert keys[i] == keys[1..][i - 1]; }
          }
        }
        rest
  }
}
