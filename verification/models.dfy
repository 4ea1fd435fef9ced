/** The stored documents of the storefront. Every collection is a map from
    document id to record; money is integer cents; ratings are reals. */
module Models {
  import opened Results

  type ProductId = string
  type CategoryId = string
  type UserId = string
  type OrderId = string

  /** A clock reading, supplied by the caller (`Date.now()`). */
  type Time = int

  /** One customer review of a product. */
  datatype Review = Review(user: UserId, name: string, rating: real, comment: string)

  /** A catalog entry. `quantity` and `countInStock` are two stock counters the
      store keeps side by side; nothing stops either from being negative.
      `rating` and `numReviews` are stored fields too, which the review
      handler recomputes but which an add or update request may also set. */
  datatype Product = Product(
    name: string,
    description: string,
    image: string,
    price: nat,
    brand: string,
    category: CategoryId,
    quantity: int,
    countInStock: int,
    rating: real,
    numReviews: int,
    reviews: seq<Review>,
    createdAt: Time)

  /** One line of an order: a product reference, the client's name and image
      for it, the quantity, and the unit price captured when the order was made. */
  datatype LineItem = LineItem(product: ProductId, name: string, image: string, qty: nat, price: nat)

  datatype ShippingAddress = ShippingAddress(address: string, city: string, postalCode: string, country: string)

  /** What the payment provider reported for a paid order. */
  datatype PaymentResult = PaymentResult(id: string, status: string, updateTime: string, email: string)

  /** The four amounts stored on an order, in cents. */
  datatype Prices = Prices(itemsPrice: nat, shippingPrice: nat, taxPrice: nat, totalPrice: nat)

  datatype Order = Order(
    user: UserId,
    orderItems: seq<LineItem>,
    shippingAddress: ShippingAddress,
    paymentMethod: string,
    prices: Prices,
    isPaid: bool,
    paidAt: Option<Time>,
    paymentResult: Option<PaymentResult>,
    isDelivered: bool,
    deliveredAt: Option<Time>)

  datatype Category = Category(name: string)

  /** A user account; `password` holds the stored (hashed) password. */
  datatype User = User(username: string, email: string, password: string, isAdmin: bool)
}
