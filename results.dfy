/** Failure-carrying values shared by the route and response-container models,
    and the exceptions the modelled code raises. */
module Results {

  datatype Option<+T> = None | Some(value: T)

  /** Either a value or the exception that was raised instead. */
  datatype Result<+T, +E> = Ok(value: T) | Err(error: E)

  /** A step that returns nothing or raises. */
  datatype Outcome<+E> = Pass | Fail(error: E)

  /** Exceptions raised while building or dispatching a route. */
  datatype RouteError =
      /** ImproperlyConfiguredException: a `{...}` group without a `:`. */
    | MissingParameterType(param: string)
      /** ValueError: `name, type = param.split(":")` got more than two pieces. */
    | TooManyValuesToUnpack(param: string)
      /** KeyError: the type name is not in the parameter type table. */
    | UnknownParameterType(typeName: string)
      /** ImproperlyConfiguredException: two handlers for one path and method. */
    | HandlerAlreadyRegistered(path: string, httpMethod: string)
      /** MethodNotAllowedException: the request method is not served by the route. */
    | MethodNotAllowed
      /** KeyError: the method passed the check but the handler map has no entry. */
    | NoHandlerForMethod(httpMethod: string)

  /** Exceptions raised while building or converting a response container. */
  datatype ContainerError =
      /** ImproperlyConfiguredException: file_system lacks callable `info`/`open`. */
    | FileSystemNotConforming
      /** ImproperlyConfiguredException: the stream source is not iterable. */
    | IteratorNotIterable
      /** ImproperlyConfiguredException: the application has no template engine. */
    | TemplateEngineNotConfigured
}
