/** HTTP-style replies shared by the route modules. */
module Http {

  /** The outcome of a route handler: a success status with a JSON body, or an
      error status with the `{ message }` body every route uses for errors. */
  datatype Response<T> = Reply(status: nat, body: T) | Error(status: nat, message: string)
}
