/**
 * The route table inside `HttpServer::handleClient`: three known paths serve a
 * fixed HTML page with status 200, every other path the 404 page; all four
 * are sent as `text/html`. `Respond` is the whole text-level request handling:
 * parse the target, pick the page, serialise the response.
 */
module Routes {
  import opened Wrappers
  import opened Text
  import Request
  import opened Response

  const HomePage: string :=
    "\n<!DOCTYPE html>\n<html>\n<head><title>C++ HTTP Server</title></head>\n<body>\n"
    + "    <h1>Welcome to C++ HTTP Server!</h1>\n"
    + "    <p>This is a multi-threaded HTTP server built with C++</p>\n"
    + "    <ul>\n        <li><a href=\"/about\">About</a></li>\n"
    + "        <li><a href=\"/stats\">Stats</a></li>\n    </ul>\n</body>\n</html>\n"

  const AboutPage: string :=
    "\n<!DOCTYPE html>\n<html>\n<head><title>About</title></head>\n<body>\n"
    + "    <h1>About This Server</h1>\n    <p>Multi-threaded HTTP Server</p>\n"
    + "    <p>Built with: C++, POSIX Sockets, Thread Pool</p>\n"
    + "    <p><a href=\"/\">Home</a></p>\n</body>\n</html>\n"

  const StatsPage: string :=
    "\n<!DOCTYPE html>\n<html>\n<head><title>Stats</title></head>\n<body>\n"
    + "    <h1>Server Statistics</h1>\n    <p>Server is running smoothly!</p>\n"
    + "    <p><a href=\"/\">Home</a></p>\n</body>\n</html>\n"

  const NotFoundPage: string := "<h1>404 Not Found</h1>"

  const HtmlType: string := "text/html"

  /** What a route produces: the arguments handed to `buildResponse`. */
  datatype Page = Page(status: int, contentType: string, body: string)

  function Route(path: string): Page
  {
    if path == "/" then Page(200, HtmlType, HomePage)
    else if path == "/about" then Page(200, HtmlType, AboutPage)
    else if path == "/stats" then Page(200, HtmlType, StatsPage)
    else Page(404, HtmlType, NotFoundPage)
  }

  /** Reference definition of the routes as a table. */
  const Pages: map<string, string> := map["/" := HomePage, "/about" := AboutPage, "/stats" := StatsPage]

  /** The if-chain is the table: a known path gets its page with 200, any other the 404 page. */
  lemma RouteIsTableLookup(path: string)
    ensures Route(path) == if path in Pages then Page(200, HtmlType, Pages[path])
                           else Page(404, HtmlType, NotFoundPage)
  {
  }

  /** Every route answers in HTML; the status is 200 exactly for the three known paths, otherwise 404. */
  lemma RouteStatus(path: string)
    ensures Route(path).contentType == "text/html"
    ensures Route(path).status == 200 <==> path == "/" || path == "/about" || path == "/stats"
    ensures Route(path).status != 200 ==> Route(path).status == 404 && Route(path).body == "<h1>404 Not Found</h1>"
  {
  }

  /** The response `handleClient` writes for a request text that it has read. */
  function Respond(request: string): string
  {
    var page := Route(Request.ParseRequest(request));
    BuildResponse(page.status, page.contentType, page.body)
  }

  /** The response carries exactly the page routed for the parsed target. */
  lemma RespondRoutesParsedTarget(request: string)
    ensures var page := Route(Request.ParseRequest(request));
      ParseResponse(Respond(request)) == Some(Message(page.status, StatusText(page.status), "text/html", page.body))
  {
    var page := Route(Request.ParseRequest(request));
    RouteStatus(Request.ParseRequest(request));
    assert NoCR(page.contentType);
    ParseBuildResponse(page.status, page.contentType, page.body);
  }

  /**
   * For every request text a client reads back the page the route table gives
   * for the request's second word (the empty path, hence the 404 page, when
   * there are fewer than two words), with its reason phrase and `text/html`.
   */
  lemma RespondSpec(request: string)
    ensures var target := if |Request.Tokens(request)| >= 2 then Request.Tokens(request)[1] else "";
      ParseResponse(Respond(request))
        == Some(Message(Route(target).status, StatusText(Route(target).status), "text/html", Route(target).body))
  {
    Request.ParseRequestIsSecondToken(request);
    RespondRoutesParsedTarget(request);
  }

  /** A request with fewer than two words is answered with the 404 page. */
  lemma RespondToShortRequest(request: string)
    requires |Request.Tokens(request)| < 2
    ensures ParseResponse(Respond(request)) == Some(Message(404, "Not Found", "text/html", NotFoundPage))
  {
    RespondSpec(request);
  }

  /**
   * End to end: for a request line `M SP T ...` a client reads back the status
   * and the page that the route table gives for `T`, with reason "OK" or
   * "Not Found" and content type `text/html`.
   */
  lemma RespondToRequestLine(verb: string, target: string, more: string)
    requires |verb| > 0 && NoSpace(verb)
    requires |target| > 0 && NoSpace(target)
    requires more == [] || IsSpace(more[0])
    ensures ParseResponse(Respond(verb + " " + target + more))
         == Some(Message(Route(target).status, StatusText(Route(target).status), "text/html", Route(target).body))
  {
    Request.ParseRequestLine(verb, target, more);
    assert NoCR(HtmlType);
    var page := Route(target);
    ParseBuildResponse(page.status, page.contentType, page.body);
  }
}
