/** Small shared vocabulary: optional values, the Java exceptions the core can raise,
    and a floating-point 3-vector approximated by reals. */
module Common {

  datatype Option<T> = None | Some(value: T)

  /** The unchecked exceptions thrown by the code that is modelled:
      `checkNotNull` and dereferencing a null chunk raise NullDereference,
      `checkArgument` raises IllegalArgument, and the `(Vehicle)` casts of mount and
      dismount raise ClassCast on an entity that is not a Vehicle. */
  datatype Exception = NullDereference | IllegalArgument | ClassCast

  /** How a Java call ends: it returns a value or it throws. */
  datatype Outcome<T> = Normal(value: T) | Thrown(exception: Exception)

  /** A float vector of the source, modelled without rounding. */
  datatype Vec3 = Vec3(x: real, y: real, z: real)

  const Zero: Vec3 := Vec3(0.0, 0.0, 0.0)

  /** The block states this core distinguishes: air, obsidian, nether portal, and any other. */
  datatype BlockState = Air | Obsidian | PortalBlock | OtherBlock(id: nat)
}
