/** The two NestJS HTTP exceptions the authentication core throws. */
module Http {

  datatype HttpException =
    | Unauthorized(message: string)
    | InternalServerError(message: string)
  {
    /** The HTTP status code NestJS answers with. */
    function Status(): (code: nat)
      ensures code == 401 <==> Unauthorized?
      ensures code == 500 <==> InternalServerError?
    {
      match this
      case Unauthorized(_) => 401
      case InternalServerError(_) => 500
    }
  }

  /** The message of a bare `new UnauthorizedException()`, raised by the guard when no user is produced. */
  const UnauthorizedMessage := "Unauthorized"
}
