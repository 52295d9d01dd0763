/** The route table of the folder, file and share routers, and the sign-in guard that
    sits in front of most of it. */
module Routes {
  import opened Outcomes

  datatype Verb = Get | Post

  datatype Endpoint =
    | Dashboard | CreateFolder | ViewFolder | UpdateFolder | DeleteFolder
    | UploadFile | DownloadFile | DeleteFile
    | CreateShare | ViewShare | DownloadSharedFile

  datatype Route = Route(verb: Verb, pattern: string)

  function RouteOf(e: Endpoint): Route {
    match e
    case Dashboard => Route(Get, "/dashboard")
    case CreateFolder => Route(Post, "/folders")
    case ViewFolder => Route(Get, "/folders/:id")
    case UpdateFolder => Route(Post, "/folders/:id/update")
    case DeleteFolder => Route(Post, "/folders/:id/delete")
    case UploadFile => Route(Post, "/files/upload/:folderId")
    case DownloadFile => Route(Get, "/files/download/:fileId")
    case DeleteFile => Route(Post, "/files/:id/delete")
    case CreateShare => Route(Post, "/share/create")
    case ViewShare => Route(Get, "/share/:token")
    case DownloadSharedFile => Route(Get, "/share/download/:token/:fileId")
  }

  /** Whether the route is mounted behind `ensureAuth`. */
  predicate Guarded(e: Endpoint) {
    !(e == ViewShare || e == DownloadSharedFile)
  }

  /** What a request reaches: the sign-in redirect, or the handler with a principal. */
  datatype Dispatch = ToLogin | Handle(endpoint: Endpoint, principal: Option<int>)

  function DispatchRequest(e: Endpoint, principal: Option<int>): (d: Dispatch)
    ensures d.ToLogin? <==> Guarded(e) && principal.None?
    ensures d.Handle? ==> d.endpoint == e && (Guarded(e) ==> d.principal.Some?)
  {
    if Guarded(e) && principal.None? then ToLogin else Handle(e, principal)
  }

  /** Every route that can change state (a POST) is guarded; the two open routes only
      read, and only through a share token. */
  lemma WritesNeedSignIn(e: Endpoint)
    ensures RouteOf(e).verb == Post ==> Guarded(e)
    ensures !Guarded(e) ==> RouteOf(e).verb == Get && (e == ViewShare || e == DownloadSharedFile)
  {
  }

  /** No two endpoints share a verb and a path pattern. */
  lemma RoutesDistinct(e1: Endpoint, e2: Endpoint)
    requires e1 != e2
    ensures RouteOf(e1) != RouteOf(e2)
  {
  }
}
