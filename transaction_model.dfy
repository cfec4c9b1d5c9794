/**
 * The stored transaction document and the enumerations of its schema
 * (backend/src/models/transaction.model.ts).
 */
module TransactionModel {
  import opened Wrappers
  import opened CivilTime

  datatype TransactionType = INCOME | EXPENSE {
    function Value(): string {
      match this
      case INCOME => "Income"
      case EXPENSE => "Expense"
    }
  }

  datatype PaymentMethod = CASH | CARD | UPI | BANK_TRANSFER {
    function Value(): string {
      match this
      case CASH => "Cash"
      case CARD => "Card"
      case UPI => "UPI"
      case BANK_TRANSFER => "Bank Transfer"
    }
  }

  datatype RecurringInterval = NONE | DAILY | WEEKLY | MONTHLY | YEARLY {
    function Value(): string {
      match this
      case NONE => "none"
      case DAILY => "daily"
      case WEEKLY => "weekly"
      case MONTHLY => "monthly"
      case YEARLY => "yearly"
    }
  }

  /** `Object.values(RecurringIntervalEnum)`, in declaration order. */
  const AllIntervals: seq<RecurringInterval> := [NONE, DAILY, WEEKLY, MONTHLY, YEARLY]

  datatype TransactionStatus = PENDING | COMPLETED | FAILED

  /**
   * A transaction document. `amount` is stored in paise. The schema declares
   * `nextRecurrenceDate` and `lastProcessedDate`; the transaction service
   * writes `nextRecurringDate` and `lastProcessed`, and the recurring job
   * reads `nextRecurrenceDate` and writes `lastProcessed`. All four are kept
   * apart, as the code has them.
   */
  datatype Transaction = Transaction(
    id: nat,
    userId: nat,
    txType: TransactionType,
    title: string,
    amount: int,
    category: string,
    description: Option<string>,
    receiptUrl: Option<string>,
    date: DateTime,
    isRecurring: bool,
    recurringInterval: Option<RecurringInterval>,
    nextRecurrenceDate: Option<DateTime>,
    lastProcessedDate: Option<DateTime>,
    nextRecurringDate: Option<DateTime>,
    lastProcessed: Option<DateTime>,
    status: TransactionStatus,
    paymentMethod: PaymentMethod)
}
