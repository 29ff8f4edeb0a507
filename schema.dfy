/**
 * Row shapes of the storefront's database that the catalogue page and the
 * product card read. Column names follow the `products` and `user_downloads`
 * tables; only the columns the modelled code touches carry behaviour.
 */
module Schema {
  import opened Wrappers

  /** The `product_type` enumeration. */
  datatype ProductType = Free | Paid

  /** A row of the `products` table (the `metadata` JSON column is not modelled). */
  datatype Product = Product(
    id: string,
    title: string,
    description: Option<string>,
    productType: ProductType,
    price: Option<real>,
    images: Option<seq<string>>,
    filePaths: Option<seq<string>>,
    bucketName: string,
    downloadsCount: Option<int>,
    createdBy: Option<string>,
    createdAt: string,
    updatedAt: string
  )

  /** A row of the `user_downloads` table: one entitlement of a user to a product. */
  datatype UserDownload = UserDownload(
    id: string,
    userId: string,
    productId: string,
    downloadedAt: string
  )
}
