/**
  The records exchanged between the service layer and the repositories. The `*string`
  and `*int` fields of the update requests, `nil` when the client left a field out, are
  `Option`s. `AuthUser` and the three product records mirror `internal/models` only: the
  log-in and the product checks take their fields one by one, as the Go functions do.
 */
module Models {
  import opened Wrappers

  /** A stored user; `hashedPassword` is the `hashed_password` column. */
  datatype User = User(id: int, email: string, name: string, hashedPassword: string)

  /** What the service hands back to callers: a user without the credential. */
  datatype UserWithoutPassword = UserWithoutPassword(id: int, email: string, name: string)

  /** A registration request; the repository receives the same shape with the hash
      string in `password`. */
  datatype CreateUser = CreateUser(email: string, name: string, password: string)

  datatype UpdateUser = UpdateUser(email: Option<string>, name: Option<string>, password: Option<string>)

  datatype AuthUser = AuthUser(email: string, password: string)

  /** A stored product; `createdAt` stands for the `time.Time` column as a timestamp. */
  datatype Product = Product(id: int, title: string, description: string, price: int, createdAt: int)

  datatype CreateProduct = CreateProduct(title: string, description: string, price: int)

  datatype UpdateProduct = UpdateProduct(title: Option<string>, description: Option<string>, price: Option<int>)
}
