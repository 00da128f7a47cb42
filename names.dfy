/**
 * Faces and hierarchical names, as the forwarding strategies see them.
 */
module Names {

  /** A face (link to a neighbour or to a local application), identified by number. */
  type FaceId = nat

  /**
   * One name component. Ordinary components are text; a component that the
   * pushback announcer produces by formatting a number is kept as that number,
   * because the model does not model decimal formatting and parsing.
   */
  datatype Component = Text(text: string) | Number(value: real)

  type Name = seq<Component>

  /**
   * `name.getPrefix (name.size () - 1)`: the name without its last component.
   * For the empty name the unsigned length wraps around and the whole (empty)
   * name is kept.
   */
  function WithoutLast(name: Name): (r: Name)
    ensures |name| > 0 ==> r + [name[|name| - 1]] == name
    ensures |name| == 0 ==> r == []
  {
    if |name| == 0 then [] else name[..|name| - 1]
  }

  /** `p` is a prefix of `name` (possibly equal to it). */
  predicate IsPrefix(p: Name, name: Name)
  {
    |p| <= |name| && name[..|p|] == p
  }

}
