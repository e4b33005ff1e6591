/** Shared vocabulary of the chat backend: optional values, controller-level
    errors, user roles and the chat scope of a message. */
module Base {

  datatype Option<+T> = None | Some(value: T)

  /** The errors a controller passes to `next(new AppError(...))`: status
      400, 401, 403, 404 and 500. */
  datatype Failure = BadRequest | Unauthorized | Forbidden | NotFound | ServerError

  datatype Result<+T> = Ok(value: T) | Err(error: Failure)

  type UserId = string
  type SocketId = string
  type RoomId = string

  /** The values of the `UserRole` enumeration (types.ts:5-9). */
  const RoleUser: string := "User"
  const RoleAdmin: string := "Admin"
  const RoleSuperAdmin: string := "Super-Admin"

  /** `role === 'Admin' || role === 'Super-Admin'`, the gate used by the
      admin chat, the admin unread count and `adminOnly`. */
  predicate IsAdminRole(role: string) {
    role == RoleAdmin || role == RoleSuperAdmin
  }

  /** The `chatType` field of a message. It is client supplied: anything other
      than the three known values (including an absent field) is `OtherType`. */
  datatype ChatType = Community | AdminChat | Private | OtherType

  /** JavaScript truthiness of an optional string field: absent and `""` are
      both falsy. */
  predicate Truthy(s: Option<string>) {
    s.Some? && s.value != ""
  }
}
