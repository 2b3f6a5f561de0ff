/** Concrete exchanges: what the client does against particular answers. */
module Scenarios {
  import opened Outcomes
  import opened RubyText
  import opened Checkout

  const Location: string := "https://checkout.testdrive.klarna.com/checkout/orders/"

  /** A client whose environment changes after its first request keeps sending
      to the host it first connected to. */
  method EnvironmentChangeKeepsHost(server: Server, id: string)
    returns (first: Request, second: Request)
    ensures first.host == TestHost && second.host == TestHost
    ensures first.path == ReadPath(id) && second.path == ReadPath(id)
  {
    var client := new Client();
    var _ := client.ReadOrder(server, id);
    first := client.sent[0];
    var _ := client.SetEnvironment("production");
    assert client.Host() == ProductionHost;
    var _ := client.ReadOrder(server, id);
    second := client.sent[1];
  }

  /** A server that acknowledges a created order with a `Location` header. */
  function Creating(id: string): Server {
    (log: seq<Request>) => Response(201, Some(Location + id), "")
  }

  /** Creating a valid order answered by `Location: .../orders/abc123` leaves
      the order with the id "abc123" and returns that same order. */
  method CreateAssignsLocationId() returns (id: Option<string>, same: bool)
    ensures id == Some("abc123") && same
  {
    var client := new Client();
    var order := new Order(None, true, "{}");
    LastSegmentOfUrl(Location[..|Location| - 1], "abc123");
    assert Location[..|Location| - 1] + "/" + "abc123" == Location + "abc123";
    var r := client.CreateOrder(Creating("abc123"), order);
    id := order.id;
    same := r == Success(Created(order));
  }

  /** Updating an order without an id costs exactly two requests: the write,
      then one read of the resource the `Location` header names. */
  method UpdateWithoutIdReadsBack() returns (count: nat, read: Request)
    ensures count == 2 && read.verb == Get && read.path == ReadPath("xyz789")
  {
    var client := new Client();
    var order := new Order(None, true, "{}");
    LastSegmentOfUrl(Location[..|Location| - 1], "xyz789");
    assert Location[..|Location| - 1] + "/" + "xyz789" == Location + "xyz789";
    var answer := Response(201, Some(Location + "xyz789"), "");
    assert forall log :: Creating("xyz789")(log) == answer;
    assert Checked(answer) == Success(answer);
    assert !Present(order.id);
    assert Interpolate(LastSegment(answer.location.value)) == "xyz789";
    var _ := client.UpdateOrder(Creating("xyz789"), order, Nil);
    count := |client.sent|;
    read := client.sent[1];
  }
}
