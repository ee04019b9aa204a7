/**
 * The order entity of the domain layer: its status enumeration, its line
 * items, the validating constructor `NewOrder` and the status update.
 *
 * Identifiers and instants come from outside: a fresh version-4 UUID and the
 * current time are parameters of the constructor, the current time a
 * parameter of the status update.
 */
module Domain {
  import opened Wrappers

  /** Lifecycle status of an order. There is no transition graph: any status may replace any other. */
  datatype OrderStatus = Pending | Confirmed | Shipped | Cancelled | Completed

  /** A UUID, as the 128-bit number it denotes. */
  type Id = n: nat | n < 0x1_0000_0000_0000_0000_0000_0000_0000_0000

  /** An instant of the UTC clock; only the order of instants matters to the model. */
  type Timestamp = int

  /** Rust's `u32` and `i64`. */
  type U32 = n: nat | n < 0x1_0000_0000
  type I64 = n: int | -0x8000_0000_0000_0000 <= n < 0x8000_0000_0000_0000

  datatype OrderItem = OrderItem(name: string, qty: U32, unitPriceCents: I64)

  datatype Order = Order(
    id: Id,
    customerName: string,
    email: string,
    items: seq<OrderItem>,
    totalCents: int,
    status: OrderStatus,
    createdAt: Timestamp,
    updatedAt: Timestamp)

  // ---------------------------------------------------------------------------
  // Trimming a customer name
  // ---------------------------------------------------------------------------

  /** The characters with the Unicode White_Space property, which `str::trim` strips. */
  predicate IsWhitespace(c: char) {
    c == ' ' || '\t' <= c <= '\r' || c == '\U{85}' || c == '\U{A0}' || c == '\U{1680}'
    || '\U{2000}' <= c <= '\U{200A}' || c == '\U{2028}' || c == '\U{2029}'
    || c == '\U{202F}' || c == '\U{205F}' || c == '\U{3000}'
  }

  /** A name made only of whitespace (the empty name included). */
  predicate IsBlank(s: string) {
    forall i | 0 <= i < |s| :: IsWhitespace(s[i])
  }

  /** `s` without its leading whitespace: the longest suffix that does not start with whitespace. */
  function TrimStart(s: string): (r: string)
    ensures |r| <= |s| && r == s[|s| - |r|..]
    ensures r == [] || !IsWhitespace(r[0])
    ensures forall i | 0 <= i < |s| - |r| :: IsWhitespace(s[i])
  {
    if s != [] && IsWhitespace(s[0]) then TrimStart(s[1..]) else s
  }

  /** `s` without its trailing whitespace: the longest prefix that does not end with whitespace. */
  function TrimEnd(s: string): (r: string)
    ensures |r| <= |s| && r == s[..|r|]
    ensures r == [] || !IsWhitespace(r[|r| - 1])
    ensures forall i | |r| <= i < |s| :: IsWhitespace(s[i])
  {
    if s != [] && IsWhitespace(s[|s| - 1]) then TrimEnd(s[..|s| - 1]) else s
  }

  function Trim(s: string): string {
    TrimEnd(TrimStart(s))
  }

  /** A name trims to the empty string exactly when it is blank. */
  lemma TrimEmptyIffBlank(s: string)
    ensures Trim(s) == [] <==> IsBlank(s)
  {
    var t := TrimStart(s);
    if t != [] {
      assert !IsWhitespace(t[0]);
      assert |TrimEnd(t)| > 0;
      assert !IsWhitespace(s[|s| - |t|]);
    }
  }

  // ---------------------------------------------------------------------------
  // The total of an order
  // ---------------------------------------------------------------------------

  function LineTotal(it: OrderItem): int {
    it.qty * it.unitPriceCents
  }

  /** The total as the source computes it: a running sum from the first item to the last. */
  function Total(items: seq<OrderItem>): int {
    if items == [] then 0 else Total(items[..|items| - 1]) + LineTotal(items[|items| - 1])
  }

  /** The total line by line: the sum over the items of qty times unit price. */
  function SumOfLines(items: seq<OrderItem>): int {
    if items == [] then 0 else LineTotal(items[0]) + SumOfLines(items[1..])
  }

  lemma {:induction false} TotalConcat(a: seq<OrderItem>, b: seq<OrderItem>)
    ensures Total(a + b) == Total(a) + Total(b)
    decreases |b|
  {
    if b == [] {
      assert a + b == a;
    } else {
      var b' := b[..|b| - 1];
      assert (a + b)[..|a + b| - 1] == a + b';
      TotalConcat(a, b');
    }
  }

  /** The running sum the source computes equals the specified sum over the items. */
  lemma {:induction false} TotalIsSumOfLines(items: seq<OrderItem>)
    ensures Total(items) == SumOfLines(items)
  {
    if items != [] {
      assert items == [items[0]] + items[1..];
      TotalConcat([items[0]], items[1..]);
      assert Total([items[0]]) == LineTotal(items[0]) by {
        assert [items[0]][..0] == [];
      }
      TotalIsSumOfLines(items[1..]);
    }
  }

  // ---------------------------------------------------------------------------
  // Construction and status update
  // ---------------------------------------------------------------------------

  const CustomerNameEmpty: string := "customer_name empty"
  const InvalidEmail: string := "invalid email"
  const ItemsEmpty: string := "items empty"
  const ZeroQuantity: string := "item qty must be > 0"

  predicate AllQuantitiesPositive(items: seq<OrderItem>) {
    forall i | 0 <= i < |items| :: items[i].qty > 0
  }

  /** The inputs the constructor accepts. */
  predicate AcceptableInput(customerName: string, email: string, items: seq<OrderItem>) {
    !IsBlank(customerName) && '@' in email && items != [] && AllQuantitiesPositive(items)
  }

  /** What every order that exists satisfies: it passed construction, and its timestamps are ordered. */
  predicate WellFormed(o: Order) {
    AcceptableInput(o.customerName, o.email, o.items)
    && o.totalCents == SumOfLines(o.items)
    && o.createdAt <= o.updatedAt
  }

  /**
   * `Order::new`: all-or-nothing validation, rules checked in the order
   * name, email, items, quantities, so the first failing rule names the error.
   */
  function NewOrder(customerName: string, email: string, items: seq<OrderItem>, id: Id, now: Timestamp)
    : (r: Result<Order, string>)
    ensures r.Ok? <==> AcceptableInput(customerName, email, items)
    ensures IsBlank(customerName) ==> r == Err(CustomerNameEmpty)
    ensures !IsBlank(customerName) && '@' !in email ==> r == Err(InvalidEmail)
    ensures !IsBlank(customerName) && '@' in email && items == [] ==> r == Err(ItemsEmpty)
    ensures !IsBlank(customerName) && '@' in email && items != [] && !AllQuantitiesPositive(items)
            ==> r == Err(ZeroQuantity)
    ensures r.Ok? ==> WellFormed(r.value)
    ensures r.Ok? ==> r.value.id == id && r.value.customerName == customerName
                      && r.value.email == email && r.value.items == items
    ensures r.Ok? ==> r.value.totalCents == SumOfLines(items)
    ensures r.Ok? ==> r.value.status == Pending && r.value.createdAt == now && r.value.updatedAt == now
  {
    TrimEmptyIffBlank(customerName);
    if Trim(customerName) == [] then Err(CustomerNameEmpty)
    else if '@' !in email then Err(InvalidEmail)
    else if items == [] then Err(ItemsEmpty)
    else if exists it | it in items :: it.qty == 0 then Err(ZeroQuantity)
    else
      TotalIsSumOfLines(items);
      Ok(Order(id, customerName, email, items, Total(items), Pending, now, now))
  }

  /**
   * `Order::update_status`: overwrites the status and stamps the current
   * time; every other field is kept.
   */
  function UpdateStatus(o: Order, status: OrderStatus, now: Timestamp): (r: Order)
    ensures r.status == status && r.updatedAt == now
    ensures r.id == o.id && r.customerName == o.customerName && r.email == o.email
    ensures r.items == o.items && r.totalCents == o.totalCents && r.createdAt == o.createdAt
  {
    o.(status := status, updatedAt := now)
  }

  /** With a clock that moves forward, a status update keeps an order well formed and makes it strictly newer. */
  lemma UpdateStatusAdvances(o: Order, status: OrderStatus, now: Timestamp)
    requires WellFormed(o) && o.updatedAt < now
    ensures WellFormed(UpdateStatus(o, status, now))
    ensures UpdateStatus(o, status, now).updatedAt > o.updatedAt
    ensures UpdateStatus(o, status, now).createdAt < UpdateStatus(o, status, now).updatedAt
  {
  }

  /** The unit test's order: 2 x 500 + 1 x 250 totals 1250 and starts out Pending. */
  lemma NewOrderExample(id: Id, now: Timestamp)
    ensures var r := NewOrder("Alice", "a@b.com", [OrderItem("A", 2, 500), OrderItem("B", 1, 250)], id, now);
            r.Ok? && r.value.totalCents == 1250 && r.value.status == Pending
  {
    var items := [OrderItem("A", 2, 500), OrderItem("B", 1, 250)];
    assert !IsWhitespace("Alice"[0]);
    assert '@' == "a@b.com"[1];
    assert SumOfLines(items) == 1250 by {
      assert items[1..] == [OrderItem("B", 1, 250)];
    }
  }

  // ---------------------------------------------------------------------------
  // The text of an identifier
  // ---------------------------------------------------------------------------

  function HexDigit(d: nat): (c: char)
    requires d < 16
  {
    if d < 10 then (48 + d) as char else (87 + d) as char
  }

  function Pow16(n: nat): (p: nat)
    ensures p >= 1
  {
    if n == 0 then 1 else 16 * Pow16(n - 1)
  }

  lemma {:induction false} Pow16Add(m: nat, n: nat)
    ensures Pow16(m + n) == Pow16(m) * Pow16(n)
  {
    if m > 0 {
      Pow16Add(m - 1, n);
    }
  }

  /** Thirty-two hexadecimal digits span exactly the 128-bit identifiers. */
  lemma Pow16Of32()
    ensures Pow16(32) == 0x1_0000_0000_0000_0000_0000_0000_0000_0000
  {
    assert Pow16(2) == 0x100;
    Pow16Add(2, 2);
    Pow16Add(4, 4);
    Pow16Add(8, 8);
    Pow16Add(16, 16);
  }

  /** The `width` lowest hexadecimal digits of `n`, most significant first, in lower case. */
  function Hex(n: nat, width: nat): (s: string)
    ensures |s| == width
    ensures forall i | 0 <= i < |s| :: '0' <= s[i] <= '9' || 'a' <= s[i] <= 'f'
  {
    if width == 0 then [] else Hex(n / 16, width - 1) + [HexDigit(n % 16)]
  }

  lemma {:induction false} HexInjective(a: nat, b: nat, width: nat)
    requires a < Pow16(width) && b < Pow16(width)
    requires Hex(a, width) == Hex(b, width)
    ensures a == b
  {
    if width == 0 {
    } else {
      var ha, hb := Hex(a, width), Hex(b, width);
      assert HexDigit(a % 16) == ha[width - 1] == hb[width - 1] == HexDigit(b % 16);
      assert a % 16 == b % 16;
      assert ha[..width - 1] == Hex(a / 16, width - 1);
      assert hb[..width - 1] == Hex(b / 16, width - 1);
      assert a / 16 < Pow16(width - 1);
      assert b / 16 < Pow16(width - 1);
      HexInjective(a / 16, b / 16, width - 1);
    }
  }

  /** The hyphenated form in which a UUID is displayed: 8-4-4-4-12 lower-case hex digits. */
  function IdText(id: Id): (s: string)
    ensures |s| == 36 && s[8] == s[13] == s[18] == s[23] == '-'
  {
    var h := Hex(id, 32);
    h[..8] + "-" + h[8..12] + "-" + h[12..16] + "-" + h[16..20] + "-" + h[20..]
  }

  /** The 36-character text with the four hyphens removed. */
  function Digits(s: string): string
    requires |s| == 36
  {
    s[..8] + s[9..13] + s[14..18] + s[19..23] + s[24..]
  }

  /** Removing the hyphens from the displayed form gives back the 32 hexadecimal digits. */
  lemma DigitsOfIdText(id: Id)
    ensures Digits(IdText(id)) == Hex(id, 32)
  {
    var h, s := Hex(id, 32), IdText(id);
    assert s[..8] == h[..8];
    assert s[9..13] == h[8..12];
    assert s[14..18] == h[12..16];
    assert s[19..23] == h[16..20];
    assert s[24..] == h[20..];
    assert h == h[..8] + h[8..12] + h[12..16] + h[16..20] + h[20..];
  }

  /** Different identifiers are displayed differently. */
  lemma IdTextInjective(a: Id, b: Id)
    requires IdText(a) == IdText(b)
    ensures a == b
  {
    DigitsOfIdText(a);
    DigitsOfIdText(b);
    Pow16Of32();
    HexInjective(a, b, 32);
  }
}
