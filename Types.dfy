/**
 * The value shapes of the storefront (src/lib/data/types.ts).
 *
 * Money is whole rupees and times are whole minutes (`nat`). A restaurant's
 * rating is kept in integer tenths of a star, so 4.5 stars is 45. Optional
 * fields (`field?: T` in the source) are `Option<T>`. Dates are opaque
 * timestamps (`nat`), since no helper in this model reads a clock.
 */
module Types {

  datatype Option<+T> = None | Some(value: T)

  datatype Location = Location(city: string, area: string, address: string)

  datatype Offer = Offer(
    id: string,
    title: string,
    description: string,
    discountPercent: Option<nat>,
    discountAmount: Option<nat>,
    minOrderValue: nat,
    code: Option<string>)

  datatype Restaurant = Restaurant(
    id: string,
    name: string,
    slug: string,
    image: string,
    cuisine: seq<string>,
    ratingTenths: nat,       // rating * 10
    totalReviews: nat,
    deliveryTime: nat,       // minutes
    distanceMetres: nat,     // distance in km * 1000
    deliveryFee: nat,
    minimumOrder: nat,
    isOpen: bool,
    isPureVeg: bool,
    location: Location,
    offers: Option<seq<Offer>>)

  datatype CustomizationOption = CustomizationOption(id: string, name: string, price: nat)

  datatype Customization = Customization(
    id: string,
    name: string,
    options: seq<CustomizationOption>,
    required: bool,
    maxSelection: Option<nat>)

  datatype MenuItem = MenuItem(
    id: string,
    restaurantId: string,
    name: string,
    description: string,
    price: nat,
    image: string,
    category: string,
    isVeg: bool,
    isVegan: Option<bool>,
    spiceLevel: Option<string>,   // 'mild' | 'medium' | 'hot' | 'extra-hot'
    isAvailable: bool,
    customizations: Option<seq<Customization>>)

  datatype CartItem = CartItem(
    menuItem: MenuItem,
    quantity: nat,
    customizations: map<string, seq<string>>,
    totalPrice: nat)

  datatype OrderStatus = Pending | Confirmed | Preparing | OutForDelivery | Delivered | Cancelled

  datatype PaymentMethod = Upi | Card | Cash | Wallet

  datatype Address = Address(
    id: string,
    addressLabel: string,   // "Home", "Work", "Other"
    street: string,
    landmark: Option<string>,
    city: string,
    state: string,
    pincode: string,
    phoneNumber: string)

  datatype Order = Order(
    id: string,
    restaurantId: string,
    items: seq<CartItem>,
    subtotal: nat,
    deliveryFee: nat,
    taxes: nat,
    discount: nat,
    total: nat,
    status: OrderStatus,
    deliveryAddress: Address,
    paymentMethod: PaymentMethod,
    createdAt: nat,
    estimatedDeliveryTime: Option<nat>)

  datatype Review = Review(
    id: string,
    restaurantId: string,
    userName: string,
    userAvatar: Option<string>,
    ratingTenths: nat,
    comment: string,
    date: nat,
    helpful: nat)

  datatype SortOption = Relevance | Rating | DeliveryTime | CostLowToHigh | CostHighToLow

  /**
   * `Partial<FilterOptions>`: every criterion may be absent. A price range is
   * the inclusive pair (low, high) of minimum-order amounts.
   */
  datatype FilterOptions = FilterOptions(
    cuisines: Option<seq<string>>,
    rating: Option<nat>,
    priceRange: Option<(nat, nat)>,
    deliveryTime: Option<nat>,
    isVeg: Option<bool>,
    sortBy: Option<SortOption>)

  /** The empty criteria object `{}`. */
  const NoFilters := FilterOptions(None, None, None, None, None, None)

  /** The `{ price, quantity }` shape summed by the cart total. */
  datatype PricedLine = PricedLine(price: nat, quantity: nat)
}
