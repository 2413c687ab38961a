/** The tag a physics body carries in its `userData`, as seen by collision handlers. */
module Collision {

  /** `Untagged`: the body has no `userData` (or no `type` in it);
      `Tagged(t)`: its `userData.type` is `t`. */
  datatype BodyTag = Untagged | Tagged(typeName: string)

  /** The type name both collision handlers react to. */
  const CarType: string := "car"

  /** The guard `event.body.userData && event.body.userData.type === 'car'`. */
  function IsCar(tag: BodyTag): (r: bool)
    ensures r <==> tag == Tagged(CarType)
  {
    tag.Tagged? && tag.typeName == CarType
  }
}
