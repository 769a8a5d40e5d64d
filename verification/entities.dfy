/**
 * The records kept in the table store and the message queue, and the
 * storage state the order and product controllers act on.
 */
module Entities {
  import opened Wrappers
  import opened Tables

  const CustomerPartition := "Customer"
  const ProductPartition := "Product"
  const OrderPartition := "Order"
  const NotificationQueue := "order-notifications"

  /** A customer record; orders resolve their customer through it. Its Username may be null. */
  datatype Customer = Customer(username: Option<string>)

  /** An uploaded form file; only its presence and length matter here. */
  datatype ImageFile = ImageFile(fileName: string, length: int)

  /**
   * A product. Its ProductId is the entity's row key. The image file is a
   * form-only field: it is never meant to be stored.
   */
  datatype Product = Product(
    productName: string,
    description: string,
    price: real,
    stockAvailable: int,
    imageUrl: string,
    imageFile: Option<ImageFile>)

  /** An order, with the fields the order controller reads and writes. */
  datatype Order = Order(
    customerId: string,
    username: Option<string>,
    productId: string,
    productName: string,
    quantity: int,
    unitPrice: real,
    totalPrice: real,
    orderDate: int,
    status: string)

  datatype EventType = ImageUploaded | ImageReplaced | ProductDeleted

  /** A notification message; the file name is absent for deletions. */
  datatype Message = Message(
    queue: string,
    transactionId: string,
    eventType: EventType,
    productId: string,
    fileName: Option<string>,
    timestamp: int)

  /** The table store and the notification queue (oldest message first). */
  datatype Storage = Storage(
    customers: seq<Entity<Customer>>,
    products: seq<Entity<Product>>,
    orders: seq<Entity<Order>>,
    queue: seq<Message>)

  predicate WellKeyed(s: Storage) {
    UniqueKeys(s.customers) && UniqueKeys(s.products) && UniqueKeys(s.orders)
  }
}
