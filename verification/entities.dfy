/** The persisted records the controllers handle, reduced to the fields they read or write. */
module Entities {

  /** A database identifier (a generated UUID in the application). */
  type Uuid = nat

  /**
   * A user account. The remaining profile fields (names, salutation, address,
   * status) are carried through unchanged by every modelled operation and are
   * left out.
   */
  datatype User = User(
    id: Uuid,
    username: string,
    password: string,
    role: string,
    email: string,
    profilePicture: string)

  /** A phone of the catalog; display size and price are floats and left out. */
  datatype Phone = Phone(
    id: Uuid,
    name: string,
    description: string,
    memory: int,
    battery: int,
    picture: string)
}
