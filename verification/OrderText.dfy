/** Orders and order requests on the wire. */
module OrderTexts {
  import opened FixedWidth
  import opened Orders
  import opened Decimals
  import opened Fields

  function SideText(side: Side): string {
    if side.Bid? then "BUY" else "SELL"
  }

  /** The printed form of an order. */
  function OrderFields(o: Order): seq<string> {
    [SideText(o.side), Decimal(o.volume), o.name, Decimal(o.id), Decimal(o.price)]
  }

  function OrderOf(parts: seq<string>): Result<Order> {
    if |parts| != 5 then Failure(InvalidOrderData)
    else
      var volume :- ParseU64(parts[1]);
      var id :- ParseU64(parts[3]);
      var price :- ParseU64(parts[4]);
      Success(Order(if parts[0] == "BUY" then Bid else Ask, volume, parts[2], id, price))
  }

  /** Order::serialize. */
  method Serialize(o: Order) returns (result: string)
    ensures result == (if o.side.Bid? then "BUY" else "SELL") + "," + Decimal(o.volume) + "," + o.name + ","
                      + Decimal(o.id) + "," + Decimal(o.price)
    ensures "SELL," <= result <==> o.side.Ask?
    ensures "BUY," <= result <==> o.side.Bid?
    ensures result == Join(OrderFields(o))
  {
    WireText(o);
    hide Decimal, Join;
    result := "";
    result := result + (if o.side == Bid then "BUY" else "SELL");
    result := result + ",";
    result := result + Decimal(o.volume);
    result := result + ",";
    result := result + o.name;
    result := result + ",";
    result := result + Decimal(o.id);
    result := result + ",";
    result := result + Decimal(o.price);
  }

  /**
   The printed form, spelled out: BUY or SELL, volume, name, id and price, with commas between.
   */
  lemma WireText(o: Order)
    ensures var text := Join(OrderFields(o));
            && text == (if o.side.Bid? then "BUY" else "SELL") + "," + Decimal(o.volume) + "," + o.name + ","
                       + Decimal(o.id) + "," + Decimal(o.price)
            && ("SELL," <= text <==> o.side.Ask?)
            && ("BUY," <= text <==> o.side.Bid?)
  {
    hide Decimal, Join;
    JoinFive(OrderFields(o));
    var text := Join(OrderFields(o));
    assert text[0] == if o.side.Bid? then 'B' else 'S';
  }

  /** Order::deserialize. */
  method Deserialize(data: string) returns (r: Result<Order>)
    ensures r == OrderOf(Split(data))
    ensures |Split(data)| != 5 ==> r == Failure(InvalidOrderData)
    ensures r.Success? ==> |Split(data)| == 5 && IsReadFrom(r.value, Split(data))
  {
    var parts := ReadFields(data);
    if |parts| != 5 {
      return Failure(InvalidOrderData);
    }
    var side := if parts[0] == "BUY" then Bid else Ask;
    var volume :- ParseU64(parts[1]);
    var name := parts[2];
    var orderId :- ParseU64(parts[3]);
    var priceVal :- ParseU64(parts[4]);
    return Success(Order(side, volume, name, orderId, priceVal));
  }

  /** The order's fields are what five texts say: only the word BUY makes a bid, and the name is taken as it is. */
  predicate IsReadFrom(o: Order, parts: seq<string>)
    requires |parts| == 5
  {
    && (o.side == Bid <==> parts[0] == "BUY")
    && ParseU64(parts[1]) == Success(o.volume)
    && o.name == parts[2]
    && ParseU64(parts[3]) == Success(o.id)
    && ParseU64(parts[4]) == Success(o.price)
  }

  /**
   What becomes of any five or other number of texts: the order they say, exactly when there are
   five and the three numbers parse; otherwise the first error, the count before the numbers.
   */
  lemma OrderOfAnyFields(parts: seq<string>)
    ensures |parts| != 5 ==> OrderOf(parts) == Failure(InvalidOrderData)
    ensures |parts| == 5 ==>
              && (forall o :: OrderOf(parts) == Success(o) <==> IsReadFrom(o, parts))
              && (forall e :: OrderOf(parts) == Failure(e) <==>
                    if ParseU64(parts[1]).Failure? then ParseU64(parts[1]) == Failure(e)
                    else if ParseU64(parts[3]).Failure? then ParseU64(parts[3]) == Failure(e)
                    else ParseU64(parts[4]) == Failure(e))
  {
    hide ParseU64;
  }

  lemma JoinFive(p: seq<string>)
    requires |p| == 5
    ensures Join(p) == p[0] + "," + p[1] + "," + p[2] + "," + p[3] + "," + p[4]
  {
    assert Join(p[4..]) == p[4];
    assert Join(p[3..]) == p[3] + "," + Join(p[4..]) by { assert p[3..][1..] == p[4..]; }
    assert Join(p[2..]) == p[2] + "," + Join(p[3..]) by { assert p[2..][1..] == p[3..]; }
    assert Join(p[1..]) == p[1] + "," + Join(p[2..]) by { assert p[1..][1..] == p[2..]; }
    assert Join(p) == p[0] + "," + Join(p[1..]);
  }

  lemma NumbersHaveNoCommas(n: nat)
    ensures Commas(Decimal(n)) == 0 && Decimal(n) != ""
  {
    DecimalDigits(n);
    NoCommas(Decimal(n));
  }

  lemma CommasOfFive(p: seq<string>)
    requires |p| == 5
    ensures Commas(Join(p)) == 4 + Commas(p[0]) + Commas(p[1]) + Commas(p[2]) + Commas(p[3]) + Commas(p[4])
  {
    JoinFive(p);
    var c := ",";
    CommasOfConcat(p[0] + c + p[1] + c + p[2] + c + p[3] + c, p[4]);
    CommasOfConcat(p[0] + c + p[1] + c + p[2] + c + p[3], c);
    CommasOfConcat(p[0] + c + p[1] + c + p[2] + c, p[3]);
    CommasOfConcat(p[0] + c + p[1] + c + p[2], c);
    CommasOfConcat(p[0] + c + p[1] + c, p[2]);
    CommasOfConcat(p[0] + c + p[1], c);
    CommasOfConcat(p[0] + c, p[1]);
    CommasOfConcat(p[0], c);
    assert Commas(c) == 1;
  }

  /** An order with k commas in its name is read back as 5 + k fields. */
  lemma FieldsOfOrder(o: Order)
    ensures |Split(Join(OrderFields(o)))| == 5 + Commas(o.name)
  {
    hide Split, Join, Commas, Decimal;
    var p := OrderFields(o);
    NumbersHaveNoCommas(o.volume);
    NumbersHaveNoCommas(o.id);
    NumbersHaveNoCommas(o.price);
    SideHasNoCommas(o.side);
    CommasOfFive(p);
    LastOfFive(p);
    NoCommas(p[4]);
    NumberOfFields(Join(p));
  }

  lemma SideHasNoCommas(side: Side)
    ensures Commas(SideText(side)) == 0
  {
    NoCommas(SideText(side));
  }

  lemma LastOfFive(p: seq<string>)
    requires |p| == 5 && p[4] != ""
    ensures Join(p) != "" && Join(p)[|Join(p)| - 1] == p[4][|p[4]| - 1]
  {
    hide Join;
    JoinFive(p);
  }

  lemma OrderOfItsFields(o: Order)
    ensures OrderOf(OrderFields(o)) == Success(o)
  {
    hide Decimal, ParseU64;
    DecimalRoundTrip(o.volume);
    DecimalRoundTrip(o.id);
    DecimalRoundTrip(o.price);
  }

  /** Parsing the printed form gives the order back exactly when its name has no comma; otherwise it is rejected. */
  lemma OrderRoundTrip(o: Order)
    ensures OrderOf(Split(Join(OrderFields(o)))) == Success(o) <==> Commas(o.name) == 0
    ensures Commas(o.name) > 0 ==> OrderOf(Split(Join(OrderFields(o)))) == Failure(InvalidOrderData)
  {
    hide Split, Join, OrderFields, Commas;
    FieldsOfOrder(o);
    if Commas(o.name) == 0 {
      FieldsComeBack(o);
      OrderOfItsFields(o);
    } else {
      TooManyFields(Split(Join(OrderFields(o))));
    }
  }

  lemma TooManyFields(parts: seq<string>)
    requires |parts| != 5
    ensures OrderOf(parts) == Failure(InvalidOrderData)
  {
  }

  lemma FieldsComeBack(o: Order)
    requires Commas(o.name) == 0
    ensures Split(Join(OrderFields(o))) == OrderFields(o)
  {
    var p := OrderFields(o);
    NumbersHaveNoCommas(o.volume);
    NumbersHaveNoCommas(o.id);
    NumbersHaveNoCommas(o.price);
    SideHasNoCommas(o.side);
    SplitOfJoin(p);
  }

  // ----- Requests

  datatype RequestType = New | Cancel

  datatype OrderRequest = OrderRequest(clientId: u64, kind: RequestType, order: Order)

  function TypeText(kind: RequestType): string {
    if kind.New? then "NEW" else "CANCEL"
  }

  function RequestFields(q: OrderRequest): seq<string> {
    [Decimal(q.clientId), TypeText(q.kind)] + OrderFields(q.order)
  }

  function RequestOf(parts: seq<string>): Result<OrderRequest> {
    if |parts| != 7 then Failure(InvalidRequestData)
    else
      var clientId :- ParseU64(parts[0]);
      var order :- OrderOf(Split(Join(parts[2..])));
      Success(OrderRequest(clientId, if parts[1] == "NEW" then New else Cancel, order))
  }

  /** The printed form of a request, spelled out. */
  lemma RequestWireText(q: OrderRequest)
    ensures Join(RequestFields(q))
            == Decimal(q.clientId) + "," + (if q.kind.New? then "NEW" else "CANCEL") + ","
               + (if q.order.side.Bid? then "BUY" else "SELL") + "," + Decimal(q.order.volume) + "," + q.order.name + ","
               + Decimal(q.order.id) + "," + Decimal(q.order.price)
  {
    hide Decimal, Join, RequestFields, OrderFields;
    RequestText(q);
    WireText(q.order);
  }

  /** OrderRequest::serialize. */
  method SerializeRequest(q: OrderRequest) returns (result: string)
    ensures result == Decimal(q.clientId) + "," + (if q.kind.New? then "NEW" else "CANCEL") + ","
                      + (if q.order.side.Bid? then "BUY" else "SELL") + "," + Decimal(q.order.volume) + "," + q.order.name + ","
                      + Decimal(q.order.id) + "," + Decimal(q.order.price)
    ensures result == Join(RequestFields(q))
  {
    hide Decimal, Join, RequestFields, OrderFields;
    RequestText(q);
    RequestWireText(q);
    result := "";
    result := result + Decimal(q.clientId);
    result := result + ",";
    result := result + (if q.kind == New then "NEW" else "CANCEL");
    result := result + ",";
    var order := Serialize(q.order);
    result := result + order;
  }

  /** OrderRequest::deserialize: split, rejoin the order's five fields, and split those again. */
  method DeserializeRequest(data: string) returns (r: Result<OrderRequest>)
    ensures r == RequestOf(Split(data))
    ensures |Split(data)| != 7 ==> r == Failure(InvalidRequestData)
    ensures r.Success? ==> |Split(data)| == 7 && IsRequestFrom(r.value, Split(data))
  {
    RequestOfAnyText(data);
    var parts := ReadFields(data);
    if |parts| != 7 {
      return Failure(InvalidRequestData);
    }
    var clientId :- ParseU64(parts[0]);
    var kind := if parts[1] == "NEW" then New else Cancel;
    var orderData := parts[2] + "," + parts[3] + "," + parts[4] + "," + parts[5] + "," + parts[6];
    JoinFive(parts[2..]);
    var order :- Deserialize(orderData);
    return Success(OrderRequest(clientId, kind, order));
  }

  /** The request is what seven texts say: an id, the word NEW or any other, and an order's five fields. */
  predicate IsRequestFrom(q: OrderRequest, parts: seq<string>)
    requires |parts| == 7
  {
    && ParseU64(parts[0]) == Success(q.clientId)
    && (q.kind == New <==> parts[1] == "NEW")
    && IsReadFrom(q.order, parts[2..])
  }

  /**
   What becomes of any text: it is accepted exactly when it has seven fields and they say a request,
   which is then the result. Any other number of fields is rejected as such; with seven, the first
   error is the client id's, then that of an empty last field, which rejoining loses, then the order's.
   */
  lemma RequestOfAnyText(data: string)
    ensures var parts := Split(data);
            && (|parts| != 7 ==> RequestOf(parts) == Failure(InvalidRequestData))
            && (|parts| == 7 ==>
                  && (forall q :: RequestOf(parts) == Success(q) <==> IsRequestFrom(q, parts))
                  && (forall e :: RequestOf(parts) == Failure(e) <==>
                        if ParseU64(parts[0]).Failure? then ParseU64(parts[0]) == Failure(e)
                        else if parts[6] == "" then e == InvalidOrderData
                        else OrderOf(parts[2..]) == Failure(e)))
  {
    hide ParseU64, Split, Join, OrderOf;
    var parts := Split(data);
    if |parts| == 7 {
      var five := parts[2..];
      ResplitIffLastFieldNotEmpty(data);
      OrderOfAnyFields(five);
      if parts[6] == "" {
        EmptyLastFieldIsLost(data);
        NothingToParse();
        TooManyFields(Split(Join(five)));
      }
    }
  }

  lemma NothingToParse()
    ensures ParseU64("") == Failure(NoConversion)
  {
  }

  /** When the last of the seven fields is empty, rejoining the last five and splitting again gives four. */
  lemma EmptyLastFieldIsLost(data: string)
    requires |Split(data)| == 7 && Split(data)[6] == ""
    ensures |Split(Join(Split(data)[2..]))| != 5
  {
    var five := Split(data)[2..];
    SplitHasNoCommas(data);
    CommasOfFive(five);
    JoinFive(five);
    NumberOfFields(Join(five));
  }

  lemma RequestText(q: OrderRequest)
    ensures Join(RequestFields(q)) == Decimal(q.clientId) + "," + TypeText(q.kind) + "," + Join(OrderFields(q.order))
  {
    hide Decimal;
    var p := RequestFields(q);
    assert p[1..][1..] == OrderFields(q.order);
    assert Join(p[1..]) == p[1] + "," + Join(p[1..][1..]);
    assert Join(p) == p[0] + "," + Join(p[1..]);
  }

  /** A request with k commas in its order's name is read back as 7 + k fields, which start with its id and its type. */
  lemma FieldsOfRequest(q: OrderRequest)
    ensures Split(Join(RequestFields(q))) == RequestFields(q)[..2] + Split(Join(OrderFields(q.order)))
  {
    hide Split, Join, Commas, Decimal, OrderFields;
    RequestText(q);
    NumbersHaveNoCommas(q.clientId);
    TypeHasNoCommas(q.kind);
    var id, kind, rest := Decimal(q.clientId), TypeText(q.kind), Join(OrderFields(q.order));
    FirstField(kind, rest);
    FirstField(id, kind + "," + rest);
    assert id + "," + kind + "," + rest == id + "," + (kind + "," + rest);
  }

  lemma TypeHasNoCommas(kind: RequestType)
    ensures Commas(TypeText(kind)) == 0
  {
    NoCommas(TypeText(kind));
  }

  lemma RequestOfItsFields(q: OrderRequest)
    requires Commas(q.order.name) == 0
    ensures RequestOf(RequestFields(q)) == Success(q)
  {
    hide Split, Join, Decimal, ParseU64, OrderOf, OrderFields, Commas;
    FieldsOfOrder(q.order);
    FieldsComeBack(q.order);
    OrderRoundTrip(q.order);
    DecimalRoundTrip(q.clientId);
    assert RequestFields(q)[2..] == OrderFields(q.order);
  }

  /** A request survives being split, rejoined and split again exactly when its order's name has no comma. */
  lemma RequestRoundTrip(q: OrderRequest)
    ensures RequestOf(Split(Join(RequestFields(q)))) == Success(q) <==> Commas(q.order.name) == 0
    ensures Commas(q.order.name) > 0 ==> RequestOf(Split(Join(RequestFields(q)))) == Failure(InvalidRequestData)
  {
    hide Split, Join, OrderFields, Commas, OrderOf;
    FieldsOfRequest(q);
    FieldsOfOrder(q.order);
    if Commas(q.order.name) == 0 {
      FieldsComeBack(q.order);
      RequestOfItsFields(q);
      assert RequestFields(q)[..2] + OrderFields(q.order) == RequestFields(q);
    }
  }

  /** Rejoining and splitting again is harmless exactly when the last of the seven fields is not empty. */
  lemma ResplitIffLastFieldNotEmpty(data: string)
    requires |Split(data)| == 7
    ensures Split(Join(Split(data)[2..])) == Split(data)[2..] <==> Split(data)[6] != ""
  {
    SplitHasNoCommas(data);
    SplitOfJoin(Split(data)[2..]);
  }
}
