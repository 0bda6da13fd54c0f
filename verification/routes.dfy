/**
  The navigation graph's route table: one fixed route per destination,
  and a parameterised route for a post's details.
 */
module Routes {
  import opened Outcomes

  datatype Destination = Homefeed | AddPost | Settings | Authentication | MyAccount | PostDetails

  const PostDetailsPrefix: string := "postDetails/"

  /** The route each destination registers; only the post-details route starts with "postDetails/". */
  function Route(d: Destination): (r: string)
    ensures r != ""
    ensures d == PostDetails <==> |r| >= |PostDetailsPrefix| && r[..|PostDetailsPrefix|] == PostDetailsPrefix
  {
    match d
    case Homefeed => "homefeed"
    case AddPost => "addPost"
    case Settings => "settings"
    case Authentication =>
      var r := "authentication";
      assert r[..|PostDetailsPrefix|][0] != PostDetailsPrefix[0];
      r
    case MyAccount => "myAccount"
    case PostDetails => PostDetailsPrefix + "{postId}"
  }

  /** The concrete route to one post: the template's prefix followed by the id, verbatim. */
  function CreateRoute(postId: string): (r: string)
    ensures |r| == |PostDetailsPrefix| + |postId|
    ensures r[..|PostDetailsPrefix|] == PostDetailsPrefix
    ensures r[|PostDetailsPrefix|..] == postId
  {
    PostDetailsPrefix + postId
  }

  /** The `postId` argument read back from a concrete post-details route. */
  function PostIdOf(route: string): (id: Option<string>)
    ensures id.Some? <==> |route| >= |PostDetailsPrefix| && route[..|PostDetailsPrefix|] == PostDetailsPrefix
    ensures id.Some? ==> route == PostDetailsPrefix + id.value
  {
    if |route| >= |PostDetailsPrefix| && route[..|PostDetailsPrefix|] == PostDetailsPrefix
    then Some(route[|PostDetailsPrefix|..])
    else None
  }

  /** Reading the argument back from a created route yields the id it was built from. */
  lemma PostIdOfCreateRoute(postId: string)
    ensures PostIdOf(CreateRoute(postId)) == Some(postId)
  {
  }

  /** Distinct posts get distinct routes. */
  lemma CreateRouteInjective(a: string, b: string)
    ensures CreateRoute(a) == CreateRoute(b) <==> a == b
  {
    PostIdOfCreateRoute(a);
    PostIdOfCreateRoute(b);
  }

  /** A created route and the registered template share the prefix "postDetails/". */
  lemma CreateRouteSharesTemplatePrefix(postId: string)
    ensures CreateRoute(postId)[..|PostDetailsPrefix|] == Route(PostDetails)[..|PostDetailsPrefix|] == PostDetailsPrefix
  {
  }

  /** The six registered routes are pairwise distinct. */
  lemma RoutesDistinct(d: Destination, e: Destination)
    ensures Route(d) == Route(e) <==> d == e
  {
  }

  /**
    A created route never coincides with a fixed route, except that the id
    "{postId}" reproduces the template itself.
   */
  lemma CreateRouteAvoidsFixedRoutes(postId: string, d: Destination)
    ensures CreateRoute(postId) == Route(d) <==> d == PostDetails && postId == "{postId}"
  {
    assert CreateRoute(postId)[0] == 'p';
    if d == PostDetails {
      CreateRouteInjective(postId, "{postId}");
    } else {
      assert Route(d)[0] != 'p';
    }
  }
}
